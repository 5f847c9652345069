/**
  Opening a shared cache directory: the init lock, the wipe of a cache of another
  version, and the loaders that wait for it.
*/
module InitLock {
  import opened Wrappers

  // Any number of threads and processes take these steps in any order; each may die
  // between two steps.  Assumptions, made visible as the shape of the steps: creating a directory
  // succeeds, and a lock is broken only when its owner is dead (in the source: when the
  // lock is older than thirty seconds), in one step.

  datatype Dir = FilesIndex | AnalysesIndex | BuildsIndex | MirIndex | Blobs | Wal

  function AllDirs(): set<Dir> {
    {FilesIndex, AnalysesIndex, BuildsIndex, MirIndex, Blobs, Wal}
  }

  datatype Version = Missing | Outdated | Current

  /** Where a loader stands. */
  datatype Pc =
    | Starting                    // about to create the lock directory
    | Checking                    // holds the lock, about to read the version file
    | Wiping                      // removes the entries of the cache directory one by one
    | Rebuilding(rest: set<Dir>)  // the wipe recreates the directories
    | Creating(rest: set<Dir>)    // init creates the directories once more
    | Writing                     // about to write the version file
    | Releasing                   // about to remove the lock
    | Waiting                     // about to read the version file without the lock
    | Grabbing                    // about to try the lock again
    | Judging                     // about to look at the age of the lock
    | Returned
    | Dead

  datatype State = State(version: Version, dirs: set<Dir>, lock: Option<nat>, pcs: seq<Pc>, writeFailed: bool)

  datatype Action =
    | Acquire(l: nat)
    | Refused(l: nat)
    | ReadVersion(l: nat)
    | WipeDir(l: nat, dir: Dir)
    | WipeVersion(l: nat)
    | WipeDone(l: nat)
    | Create(l: nat, dir: Dir)
    | CreateDone(l: nat)
    | WriteVersion(l: nat, ok: bool)
    | Release(l: nat)
    | Steal(l: nat)
    | KeepWaiting(l: nat)
    | Die(l: nat)

  predicate Holding(pc: Pc) {
    pc.Checking? || pc.Wiping? || pc.Rebuilding? || pc.Creating? || pc.Writing? || pc.Releasing?
  }

  function Goto(s: State, l: nat, pc: Pc): State
    requires l < |s.pcs|
  {
    s.(pcs := s.pcs[l := pc])
  }

  predicate Init(s: State) {
    s.lock == None && !s.writeFailed && (forall l | 0 <= l < |s.pcs| :: s.pcs[l] == Starting) &&
    (s.version == Current ==> s.dirs == AllDirs())
  }

  predicate Enabled(s: State, a: Action) {
    a.l < |s.pcs| &&
    var pc := s.pcs[a.l];
    match a
    case Acquire(l) => (pc == Starting || pc == Grabbing) && s.lock == None
    case Refused(l) => (pc == Starting || pc == Grabbing) && s.lock != None
    case ReadVersion(l) => pc == Checking || pc == Waiting
    case WipeDir(l, dir) => pc == Wiping
    case WipeVersion(l) => pc == Wiping
    case WipeDone(l) => pc == Wiping
    case Create(l, dir) => (pc.Rebuilding? || pc.Creating?) && dir in pc.rest
    case CreateDone(l) => (pc.Rebuilding? || pc.Creating?) && pc.rest == {}
    case WriteVersion(l, ok) => pc == Writing
    case Release(l) => pc == Releasing
    case Steal(l) => pc == Judging && s.lock.Some? && s.lock.value < |s.pcs| && s.pcs[s.lock.value] == Dead
    case KeepWaiting(l) => pc == Judging
    case Die(l) => pc != Returned && pc != Dead
  }

  function Apply(s: State, a: Action): State
    requires Enabled(s, a)
  {
    var pc := s.pcs[a.l];
    match a
    case Acquire(l) => Goto(s, l, Checking).(lock := Some(l))
    case Refused(l) => Goto(s, l, if pc == Starting then Waiting else Judging)
    case ReadVersion(l) =>
      if pc == Checking then Goto(s, l, if s.version == Current then Creating(AllDirs()) else Wiping)
      else Goto(s, l, if s.version == Current then Returned else Grabbing)
    case WipeDir(l, dir) => s.(dirs := s.dirs - {dir})
    case WipeVersion(l) => s.(version := Missing)
    case WipeDone(l) => Goto(s, l, Rebuilding(AllDirs()))
    case Create(l, dir) =>
      Goto(s, l, if pc.Rebuilding? then Rebuilding(pc.rest - {dir}) else Creating(pc.rest - {dir}))
        .(dirs := s.dirs + {dir})
    case CreateDone(l) => Goto(s, l, if pc.Rebuilding? then Creating(AllDirs()) else Writing)
    case WriteVersion(l, ok) =>
      Goto(s, l, Releasing).(version := if ok then Current else s.version, writeFailed := s.writeFailed || !ok)
    case Release(l) => Goto(s, l, Returned).(lock := None)
    case Steal(l) => Goto(s, l, Waiting).(lock := None)
    case KeepWaiting(l) => Goto(s, l, Waiting)
    case Die(l) => Goto(s, l, Dead)
  }

  ghost predicate IsRun(states: seq<State>, actions: seq<Action>) {
    |states| == |actions| + 1 && Init(states[0]) &&
    forall i | 0 <= i < |actions| :: Enabled(states[i], actions[i]) && states[i + 1] == Apply(states[i], actions[i])
  }

  predicate IsWipeStep(a: Action) {
    a.WipeDir? || a.WipeVersion?
  }

  ghost predicate SomeReturned(s: State) {
    exists l | 0 <= l < |s.pcs| :: s.pcs[l] == Returned
  }

  // ---- the invariant

  ghost predicate PcInv(s: State, l: nat)
    requires l < |s.pcs|
  {
    match s.pcs[l]
    case Wiping => s.version != Current
    case Rebuilding(rest) => s.version != Current && AllDirs() - rest <= s.dirs
    case Creating(rest) => AllDirs() - rest <= s.dirs
    case Writing => AllDirs() <= s.dirs
    case Releasing => s.writeFailed || s.version == Current
    case Returned => s.writeFailed || s.version == Current
    case _ => true
  }

  ghost predicate Inv(s: State) {
    (forall l: nat | l < |s.pcs| :: PcInv(s, l)) &&
    (forall l: nat | l < |s.pcs| && Holding(s.pcs[l]) :: s.lock == Some(l)) &&
    (s.lock.Some? ==> s.lock.value < |s.pcs| && (Holding(s.pcs[s.lock.value]) || s.pcs[s.lock.value] == Dead)) &&
    (s.version == Current ==> s.dirs == AllDirs())
  }

  lemma AllDirsIsAll(dirs: set<Dir>)
    ensures dirs <= AllDirs()
  {
    forall d | d in dirs ensures d in AllDirs() {
      assert d.FilesIndex? || d.AnalysesIndex? || d.BuildsIndex? || d.MirIndex? || d.Blobs? || d.Wal?;
    }
  }

  lemma InitInv(s: State)
    requires Init(s)
    ensures Inv(s)
  {
  }

  lemma StepInv(s: State, a: Action)
    requires Inv(s) && Enabled(s, a)
    ensures Inv(Apply(s, a))
  {
    var t := Apply(s, a);
    AllDirsIsAll(t.dirs);
    assert PcInv(s, a.l);
    forall l: nat | l < |t.pcs| ensures PcInv(t, l) && (Holding(t.pcs[l]) ==> t.lock == Some(l)) {
      assert PcInv(s, l);
    }
  }

  /** A current version file stays current, and with it all directories. */
  lemma VersionStays(s: State, a: Action)
    requires Inv(s) && Enabled(s, a) && s.version == Current
    ensures Apply(s, a).version == Current && Apply(s, a).dirs == AllDirs()
    ensures !IsWipeStep(a)
  {
    assert PcInv(s, a.l);
    StepInv(s, a);
  }

  lemma {:induction false} RunInv(states: seq<State>, actions: seq<Action>, i: nat)
    requires IsRun(states, actions) && i < |states|
    ensures Inv(states[i])
  {
    if i == 0 { InitInv(states[0]); }
    else {
      RunInv(states, actions, i - 1);
      StepInv(states[i - 1], actions[i - 1]);
    }
  }

  lemma {:induction false} VersionStaysOnRun(states: seq<State>, actions: seq<Action>, i: nat, j: nat)
    requires IsRun(states, actions) && i <= j < |states| && states[i].version == Current
    ensures states[j].version == Current && states[j].dirs == AllDirs()
    decreases j - i
  {
    RunInv(states, actions, i);
    if i < j {
      VersionStays(states[i], actions[i]);
      VersionStaysOnRun(states, actions, i + 1, j);
    }
  }

  // ---- the main results

  /** At most one loader is inside `init_cache`, at every point of every run. */
  lemma MutualExclusion(states: seq<State>, actions: seq<Action>, i: nat, l: nat, k: nat)
    requires IsRun(states, actions) && i < |states|
    requires l < |states[i].pcs| && k < |states[i].pcs|
    requires Holding(states[i].pcs[l]) && Holding(states[i].pcs[k])
    ensures l == k
  {
    RunInv(states, actions, i);
  }

  /** The state after some steps, if each is possible in turn. */
  function After(s: State, actions: seq<Action>): Option<State>
    decreases |actions|
  {
    if actions == [] then Some(s)
    else if Enabled(s, actions[0]) then After(Apply(s, actions[0]), actions[1..])
    else None
  }

  /** Some continuation ends with a step of a wipe. */
  ghost predicate CanBeWiped(s: State) {
    exists actions, a :: After(s, actions).Some? && Enabled(After(s, actions).value, a) && IsWipeStep(a)
  }

  /** The loader has not yet read the version file under the lock, or is wiping. */
  predicate MayYetWipe(pc: Pc) {
    pc.Starting? || pc.Checking? || pc.Wiping? || pc.Waiting? || pc.Grabbing? || pc.Judging?
  }

  ghost predicate SomeMayYetWipe(s: State) {
    exists l: nat | l < |s.pcs| :: MayYetWipe(s.pcs[l])
  }

  lemma NoWiperComesBack(s: State, a: Action)
    requires Enabled(s, a) && !SomeMayYetWipe(s)
    ensures !SomeMayYetWipe(Apply(s, a)) && !IsWipeStep(a) && s.dirs <= Apply(s, a).dirs
  {
    var t := Apply(s, a);
    forall l: nat | l < |t.pcs| ensures !MayYetWipe(t.pcs[l]) { assert !MayYetWipe(s.pcs[l]); }
  }

  /** With a current version, or with nobody left who may wipe, it stays so. */
  lemma {:induction false} WipingIsOver(s: State, actions: seq<Action>, a: Action)
    requires Inv(s) && (s.version == Current || !SomeMayYetWipe(s))
    requires After(s, actions).Some? && Enabled(After(s, actions).value, a)
    ensures !IsWipeStep(a)
    decreases |actions|
  {
    hide Inv, IsWipeStep, SomeMayYetWipe;
    var next := if actions == [] then a else actions[0];
    if s.version == Current { VersionStays(s, next); } else { NoWiperComesBack(s, next); }
    if actions != [] {
      StepInv(s, next);
      WipingIsOver(Apply(s, next), actions[1..], a);
    }
  }

  lemma OneStepEarlier(s: State, a: Action)
    requires Enabled(s, a) && CanBeWiped(Apply(s, a))
    ensures CanBeWiped(s)
  {
    hide Enabled, Apply, IsWipeStep;
    var actions, last :| After(Apply(s, a), actions).Some? &&
                         Enabled(After(Apply(s, a), actions).value, last) && IsWipeStep(last);
    assert ([a] + actions)[1..] == actions;
    assert After(s, [a] + actions) == After(Apply(s, a), actions);
  }

  lemma WipingNow(s: State, l: nat)
    requires l < |s.pcs| && s.version != Current && (s.pcs[l] == Wiping || s.pcs[l] == Checking)
    ensures CanBeWiped(s)
    decreases s.pcs[l] == Checking
  {
    if s.pcs[l] == Wiping {
      assert After(s, []) == Some(s) && IsWipeStep(WipeVersion(l)) && Enabled(s, WipeVersion(l));
    } else {
      WipingNow(Apply(s, ReadVersion(l)), l);
      OneStepEarlier(s, ReadVersion(l));
    }
  }

  function Rank(pc: Pc): nat {
    match pc case Grabbing => 0 case Waiting => 1 case Starting => 2 case _ => 3
  }

  /** A waiting loader gets in once the lock is free or its owner dead. */
  lemma {:induction false} GetsIn(s: State, l: nat)
    requires l < |s.pcs| && s.version != Current && MayYetWipe(s.pcs[l])
    requires s.lock == None || (s.lock.value < |s.pcs| && s.pcs[s.lock.value] == Dead)
    ensures CanBeWiped(s)
    decreases s.lock.Some?, if s.lock.Some? && s.pcs[l] == Judging then 0 else Rank(s.pcs[l]) + 1
  {
    hide CanBeWiped;
    if s.pcs[l] == Checking || s.pcs[l] == Wiping {
      WipingNow(s, l);
    } else {
      var a := ProgressOf(s, l);
      if a.Acquire? { WipingNow(Apply(s, a), l); } else { GetsIn(Apply(s, a), l); }
      OneStepEarlier(s, a);
    }
  }

  /** What a loader outside the lock does next. */
  function ProgressOf(s: State, l: nat): Action
    requires l < |s.pcs|
  {
    match s.pcs[l]
    case Waiting => ReadVersion(l)
    case Judging => if s.lock.Some? then Steal(l) else KeepWaiting(l)
    case _ => if s.lock.Some? then Refused(l) else Acquire(l)
  }

  /** A wipe can still follow if and only if the version file is not current and some
      loader has yet to decide about it. */
  lemma CanBeWipedExactly(states: seq<State>, actions: seq<Action>, i: nat)
    requires IsRun(states, actions) && i < |states|
    ensures CanBeWiped(states[i]) <==> states[i].version != Current && SomeMayYetWipe(states[i])
  {
    hide Enabled, Apply, MayYetWipe;
    var s := states[i];
    RunInv(states, actions, i);
    if CanBeWiped(s) {
      var rest, a :| After(s, rest).Some? && Enabled(After(s, rest).value, a) && IsWipeStep(a);
      if s.version == Current || !SomeMayYetWipe(s) { WipingIsOver(s, rest, a); }
    }
    if s.version != Current && SomeMayYetWipe(s) { SomeoneWipes(s); }
  }

  /** If the lock is held, its owner wipes itself or dies. */
  lemma SomeoneWipes(s: State)
    requires Inv(s) && s.version != Current && SomeMayYetWipe(s)
    ensures CanBeWiped(s)
  {
    hide CanBeWiped;
    var l: nat :| l < |s.pcs| && MayYetWipe(s.pcs[l]);
    if s.lock.Some? && Holding(s.pcs[s.lock.value]) {
      var owner := s.lock.value;
      if s.pcs[owner] == Checking || s.pcs[owner] == Wiping {
        WipingNow(s, owner);
      } else {
        GetsIn(Apply(s, Die(owner)), l);
        OneStepEarlier(s, Die(owner));
      }
    } else {
      GetsIn(s, l);
    }
  }

  /** Once nothing can be wiped, no later step of the run wipes, and no directory goes. */
  lemma {:induction false} NothingIsWiped(states: seq<State>, actions: seq<Action>, i: nat, j: nat)
    requires IsRun(states, actions) && i <= j < |states|
    requires states[i].version == Current || !SomeMayYetWipe(states[i])
    ensures states[j].version == Current || !SomeMayYetWipe(states[j])
    ensures states[i].dirs <= states[j].dirs && (j < |actions| ==> !IsWipeStep(actions[j]))
    decreases j - i
  {
    hide SomeMayYetWipe, IsWipeStep;
    RunInv(states, actions, i);
    if i < |actions| {
      if states[i].version == Current {
        VersionStays(states[i], actions[i]);
        assert states[i].dirs == AllDirs();
      } else {
        NoWiperComesBack(states[i], actions[i]);
      }
      if i < j { NothingIsWiped(states, actions, i + 1, j); }
    }
  }

  /** Once some loader has returned, nothing is wiped any more and every directory is
      there for good, unless writing the version file failed. */
  lemma NothingIsWipedAfterAReturn(states: seq<State>, actions: seq<Action>, i: nat, j: nat)
    requires IsRun(states, actions) && i <= j < |states|
    requires SomeReturned(states[i]) && !states[i].writeFailed
    ensures states[j].version == Current && states[j].dirs == AllDirs()
    ensures j < |actions| ==> !IsWipeStep(actions[j])
  {
    RunInv(states, actions, i);
    var l: nat :| l < |states[i].pcs| && states[i].pcs[l] == Returned;
    assert PcInv(states[i], l);
    VersionStaysOnRun(states, actions, i, j);
    NothingIsWiped(states, actions, i, j);
  }

  // ---- why the conditions are there

  lemma {:induction false} StatesOf(s: State, actions: seq<Action>) returns (states: seq<State>)
    requires After(s, actions).Some?
    ensures |states| == |actions| + 1 && states[0] == s && After(s, actions) == Some(states[|actions|])
    ensures forall i | 0 <= i < |actions| ::
      Enabled(states[i], actions[i]) && states[i + 1] == Apply(states[i], actions[i])
    decreases |actions|
  {
    hide Enabled, Apply;
    if actions == [] {
      states := [s];
    } else {
      var rest := StatesOf(Apply(s, actions[0]), actions[1..]);
      states := [s] + rest;
      forall i | 0 <= i < |actions|
        ensures Enabled(states[i], actions[i]) && states[i + 1] == Apply(states[i], actions[i])
      {
        if i > 0 { assert states[i] == rest[i - 1] && states[i + 1] == rest[i] && actions[i] == actions[1..][i - 1]; }
      }
    }
  }

  lemma {:induction false} AfterBoth(s: State, x: seq<Action>, y: seq<Action>)
    requires After(s, x).Some?
    ensures After(s, x + y) == After(After(s, x).value, y)
    decreases |x|
  {
    hide Enabled, Apply;
    if x == [] {
      assert x + y == y;
    } else {
      assert (x + y)[0] == x[0] && (x + y)[1..] == x[1..] + y;
      AfterBoth(Apply(s, x[0]), x[1..], y);
    }
  }

  lemma AfterOne(s: State, x: seq<Action>, a: Action)
    requires After(s, x).Some? && Enabled(After(s, x).value, a)
    ensures After(s, x + [a]) == Some(Apply(After(s, x).value, a))
  {
    hide Enabled, Apply;
    AfterBoth(s, x, [a]);
    var t := After(s, x).value;
    assert [a][1..] == [];
    assert After(Apply(t, a), []) == Some(Apply(t, a));
  }

  /** A loader alone creates all it has to. */
  lemma {:induction false} CreatesAll(s: State, l: nat, rest: set<Dir>) returns (actions: seq<Action>)
    requires l < |s.pcs| && (s.pcs[l] == Rebuilding(rest) || s.pcs[l] == Creating(rest))
    ensures After(s, actions) == Some(Goto(s, l, if s.pcs[l].Rebuilding? then Rebuilding({}) else Creating({}))
                                        .(dirs := s.dirs + rest))
    decreases rest
  {
    if rest == {} {
      actions := [];
      assert s.dirs + rest == s.dirs && s.pcs[l := s.pcs[l]] == s.pcs;
    } else {
      var dir :| dir in rest;
      var tail := CreatesAll(Apply(s, Create(l, dir)), l, rest - {dir});
      actions := [Create(l, dir)] + tail;
      assert actions[1..] == tail;
      assert s.dirs + {dir} + (rest - {dir}) == s.dirs + rest;
      var done := if s.pcs[l].Rebuilding? then Rebuilding({}) else Creating({});
      assert Apply(s, Create(l, dir)).pcs[l := done] == s.pcs[l := done];
    }
  }

  /** From any cache of another version a loader can return although nobody has written
      the version file, in a state in which the cache may yet be wiped. */
  lemma FailedVersionWriteLetsAReturnedLoaderBeWiped(s: State) returns (states: seq<State>, actions: seq<Action>)
    requires Init(s) && |s.pcs| > 1 && s.version != Current
    ensures IsRun(states, actions) && states[0] == s
    ensures |states[|actions|].pcs| == |s.pcs|
    ensures states[|actions|].pcs[0] == Returned && CanBeWiped(states[|actions|])
  {
    hide After, CanBeWiped, IsWipeStep;
    var start := [Acquire(0), ReadVersion(0), WipeDone(0)];
    StartsToRebuild(s);
    var s1 := After(s, start).value;
    var first := CreatesAll(s1, 0, AllDirs());
    AfterBoth(s, start, first);
    AfterOne(s, start + first, CreateDone(0));
    var again := start + first + [CreateDone(0)];
    var s2 := After(s, again).value;
    var second := CreatesAll(s2, 0, AllDirs());
    AfterBoth(s, again, second);
    AfterOne(s, again + second, CreateDone(0));
    AfterOne(s, again + second + [CreateDone(0)], WriteVersion(0, false));
    actions := again + second + [CreateDone(0)] + [WriteVersion(0, false)] + [Release(0)];
    AfterOne(s, again + second + [CreateDone(0)] + [WriteVersion(0, false)], Release(0));
    states := StatesOf(s, actions);
    var last := states[|actions|];
    assert last.pcs == s.pcs[0 := Returned] && MayYetWipe(last.pcs[1]);
    CanBeWipedExactly(states, actions, |actions|);
  }

  lemma StartsToRebuild(s: State)
    requires Init(s) && |s.pcs| > 1 && s.version != Current
    ensures After(s, [Acquire(0), ReadVersion(0), WipeDone(0)]) ==
            Some(Goto(s, 0, Rebuilding(AllDirs())).(lock := Some(0)))
  {
    var s1 := Apply(s, Acquire(0));
    var s2 := Apply(s1, ReadVersion(0));
    var s3 := Apply(s2, WipeDone(0));
    var actions := [Acquire(0), ReadVersion(0), WipeDone(0)];
    assert actions[1..][1..] == [WipeDone(0)] && actions[1..][1..][1..] == [];
    assert After(s2, [WipeDone(0)]) == After(s3, []);
    assert After(s1, actions[1..]) == After(s2, actions[1..][1..]);
    assert s3.pcs == s.pcs[0 := Rebuilding(AllDirs())];
  }

  /** Breaking the lock of a live owner, as two waiters can when the age check and the
      removal are separate steps, lets two loaders in. */
  lemma BreakingALiveLockLosesExclusion(s: State, owner: nat, l: nat)
    requires Inv(s) && s.lock == Some(owner) && owner < |s.pcs| && Holding(s.pcs[owner])
    requires l < |s.pcs| && s.pcs[l] == Grabbing
    ensures var broken := s.(lock := None);
      Enabled(broken, Acquire(l)) && Holding(Apply(broken, Acquire(l)).pcs[l]) &&
      Holding(Apply(broken, Acquire(l)).pcs[owner]) && l != owner
  {
  }
}
