/**
  A lone writer that stores entries and saves, and may die between any two file
  operations.  What a reload finds is the index on disk with the log replayed over it.
*/
module CrashRecovery {
  import opened Wrappers
  import opened CacheTypes
  import opened CacheMemory

  // Assumptions: the run starts without leftover log files, stores each entry's key once,
  // and is reloaded before its log files are old enough to be pruned; writing a log file
  // succeeds.  The replay order of the log is left open.

  /** Where an entry lives: its kind and its key. */
  datatype Slot = Slot(kind: EntryKind, key: Key)

  function SlotOf(r: WalRecord): Slot
    requires IsStore(r)
  {
    Slot(KindOf(r), StoreKey(r))
  }

  /** Build entries are stored inline and have no blob. */
  function BlobsOf(r: WalRecord): set<BlobHash> {
    match r
    case StoreFile(m) => {m.blob}
    case StoreAnalysis(m) => {m.blob}
    case StoreMir(m) => {m.blob}
    case _ => {}
  }

  type Index = map<Slot, WalRecord>

  /** A log file that was created but not yet written holds no record. */
  datatype Disk = Disk(blobs: set<BlobHash>, index: Index, wal: map<nat, Option<WalRecord>>)

  datatype Pc =
    | Idle
    | PuttingBlob(r: WalRecord)
    | MakingWal(r: WalRecord)
    | FillingWal(r: WalRecord, id: nat)
    | Remembering(r: WalRecord)
    | Trimming(r: WalRecord)
    | SavingMetas(rest: set<Slot>, before: Index)
    | Collecting(before: Index)
    | Sweeping(referenced: set<BlobHash>, before: Index)
    | DroppingWals(before: Index)

  datatype State = State(disk: Disk, memory: Index, written: set<nat>, pc: Pc,
                         begun: Index, returned: set<WalRecord>, evicted: set<Slot>)

  datatype Action =
    | BeginStore(r: WalRecord)
    | PutBlob
    | MakeWal(id: nat)
    | FillWal
    | Remember
    | Evict(slot: Slot)
    | Return
    | BeginSave
    | WriteMeta(slot: Slot)
    | EndMetas
    | Collect
    | Sweep(blob: BlobHash)
    | EndSweep
    | DropWal(id: nat)
    | EndSave

  /** The blobs named by the index or by a log record. */
  function Referenced(d: Disk): set<BlobHash> {
    (set slot, b | slot in d.index && b in BlobsOf(d.index[slot]) :: b) +
    (set id, b | id in d.wal && d.wal[id].Some? && b in BlobsOf(d.wal[id].value) :: b)
  }

  predicate Enabled(s: State, a: Action) {
    match a
    case BeginStore(r) => s.pc.Idle? && IsStore(r) && SlotOf(r) !in s.begun
    case PutBlob => s.pc.PuttingBlob?
    case MakeWal(id) => s.pc.MakingWal? && id !in s.disk.wal
    case FillWal => s.pc.FillingWal?
    case Remember => s.pc.Remembering? && IsStore(s.pc.r)
    case Evict(slot) => s.pc.Trimming?
    case Return => s.pc.Trimming?
    case BeginSave => s.pc.Idle?
    case WriteMeta(slot) => s.pc.SavingMetas? && slot in s.pc.rest && slot in s.memory
    case EndMetas => s.pc.SavingMetas? && s.pc.rest == {}
    case Collect => s.pc.Collecting?
    case Sweep(blob) => s.pc.Sweeping? && blob !in s.pc.referenced
    case EndSweep => s.pc.Sweeping?
    case DropWal(id) => s.pc.DroppingWals? && id in s.written
    case EndSave => s.pc.DroppingWals? && s.written == {}
  }

  function Apply(s: State, a: Action): State
    requires Enabled(s, a)
  {
    match a
    case BeginStore(r) => s.(pc := PuttingBlob(r), begun := s.begun[SlotOf(r) := r])
    case PutBlob => s.(pc := MakingWal(s.pc.r), disk := s.disk.(blobs := s.disk.blobs + BlobsOf(s.pc.r)))
    case MakeWal(id) => s.(pc := FillingWal(s.pc.r, id), disk := s.disk.(wal := s.disk.wal[id := None]))
    case FillWal =>
      s.(pc := Remembering(s.pc.r), written := s.written + {s.pc.id},
         disk := s.disk.(wal := s.disk.wal[s.pc.id := Some(s.pc.r)]))
    case Remember =>
      s.(pc := Trimming(s.pc.r), memory := s.memory[SlotOf(s.pc.r) := s.pc.r],
         evicted := s.evicted - {SlotOf(s.pc.r)})
    case Evict(slot) => s.(memory := s.memory - {slot}, evicted := s.evicted + {slot})
    case Return => s.(pc := Idle, returned := s.returned + {s.pc.r})
    case BeginSave => s.(pc := SavingMetas(s.memory.Keys, s.disk.index))
    case WriteMeta(slot) =>
      s.(pc := SavingMetas(s.pc.rest - {slot}, s.pc.before),
         disk := s.disk.(index := s.disk.index[slot := s.memory[slot]]))
    case EndMetas => s.(pc := Collecting(s.pc.before))
    case Collect => s.(pc := Sweeping(Referenced(s.disk), s.pc.before))
    case Sweep(blob) => s.(disk := s.disk.(blobs := s.disk.blobs - {blob}))
    case EndSweep => s.(pc := DroppingWals(s.pc.before))
    case DropWal(id) => s.(written := s.written - {id}, disk := s.disk.(wal := s.disk.wal - {id}))
    case EndSave => s.(pc := Idle)
  }

  predicate Init(s: State) {
    s.disk.wal == map[] && s.memory == s.disk.index && s.written == {} && s.pc == Idle &&
    s.begun == map[] && s.returned == {} && s.evicted == {}
  }

  ghost predicate IsRun(states: seq<State>, actions: seq<Action>) {
    Follows(states, actions) && Init(states[0])
  }

  ghost predicate Follows(states: seq<State>, actions: seq<Action>) {
    |states| == |actions| + 1 &&
    forall i | 0 <= i < |actions| :: Enabled(states[i], actions[i]) && states[i + 1] == Apply(states[i], actions[i])
  }

  // ---- what a reload finds

  function Replay(index: Index, log: seq<WalRecord>): Index {
    if log == [] then index
    else
      var r, rest := log[|log| - 1], Replay(index, log[..|log| - 1]);
      if IsStore(r) then rest[SlotOf(r) := r] else rest
  }

  /** `log` lists the records of the log files, in whatever order their names sort. */
  ghost predicate IsLog(d: Disk, log: seq<WalRecord>) {
    Lists(d.wal, log)
  }

  ghost predicate Lists(wal: map<nat, Option<WalRecord>>, log: seq<WalRecord>) {
    forall r :: r in log <==> exists id | id in wal :: wal[id] == Some(r)
  }

  ghost predicate Recovered(d: Disk, r: WalRecord)
    requires IsStore(r)
  {
    BlobsOf(r) <= d.blobs &&
    forall log | IsLog(d, log) :: SlotOf(r) in Replay(d.index, log) && Replay(d.index, log)[SlotOf(r)] == r
  }

  // ---- the invariant

  ghost predicate Logged(d: Disk, r: WalRecord) {
    exists id | id in d.wal :: d.wal[id] == Some(r)
  }

  ghost predicate Indexed(d: Disk, r: WalRecord)
    requires IsStore(r)
  {
    SlotOf(r) in d.index && d.index[SlotOf(r)] == r
  }

  /** `r` is in memory and on disk, and past the writing of its meta it is indexed. */
  ghost predicate Kept(s: State, r: WalRecord) {
    IsStore(r) && SlotOf(r) in s.memory && s.memory[SlotOf(r)] == r && BlobsOf(r) <= s.disk.blobs &&
    (Logged(s.disk, r) || Indexed(s.disk, r)) &&
    match s.pc
    case SavingMetas(rest, _) => SlotOf(r) in rest || Indexed(s.disk, r)
    case Collecting(_) => Indexed(s.disk, r)
    case Sweeping(referenced, _) => Indexed(s.disk, r) && BlobsOf(r) <= referenced
    case DroppingWals(_) => Indexed(s.disk, r)
    case _ => true
  }

  /** Whatever a meta or a log record names is still on disk, and survives the sweep. */
  ghost predicate HasBlobs(s: State, r: WalRecord)
    requires IsStore(r)
  {
    Logged(s.disk, r) || Indexed(s.disk, r) ==>
      BlobsOf(r) <= s.disk.blobs && (s.pc.Sweeping? ==> BlobsOf(r) <= s.pc.referenced)
  }

  ghost predicate Begun(s: State, r: WalRecord) {
    IsStore(r) && SlotOf(r) in s.begun && s.begun[SlotOf(r)] == r
  }

  ghost predicate PcInv(s: State) {
    match s.pc
    case PuttingBlob(r) => Begun(s, r) && r !in s.returned
    case MakingWal(r) => Begun(s, r) && r !in s.returned && BlobsOf(r) <= s.disk.blobs
    case FillingWal(r, id) => Begun(s, r) && r !in s.returned && BlobsOf(r) <= s.disk.blobs &&
                              id in s.disk.wal && s.disk.wal[id].None?
    case Remembering(r) => Begun(s, r) && r !in s.returned && BlobsOf(r) <= s.disk.blobs && Logged(s.disk, r)
    case Trimming(r) => Begun(s, r) && r !in s.returned && BlobsOf(r) <= s.disk.blobs && Logged(s.disk, r) &&
                        (SlotOf(r) in s.evicted || (SlotOf(r) in s.memory && s.memory[SlotOf(r)] == r))
    case _ => true
  }

  /** While saving, the index is what it was before plus the metas written so far. */
  ghost predicate SaveInv(s: State) {
    match s.pc
    case SavingMetas(rest, before) => rest <= s.memory.Keys && IndexIs(s, rest, before)
    case Collecting(before) => IndexIs(s, {}, before)
    case Sweeping(_, before) => IndexIs(s, {}, before)
    case DroppingWals(before) => IndexIs(s, {}, before)
    case _ => true
  }

  ghost predicate IndexIs(s: State, rest: set<Slot>, before: Index) {
    (forall slot | slot in s.memory && slot !in rest :: slot in s.disk.index && s.disk.index[slot] == s.memory[slot]) &&
    forall slot | slot !in s.memory || slot in rest ::
      (slot in s.disk.index <==> slot in before) && (slot in before ==> s.disk.index[slot] == before[slot])
  }

  ghost predicate Inv(s: State) {
    PcInv(s) && SaveInv(s) &&
    (forall id, r | id in s.disk.wal && s.disk.wal[id] == Some(r) :: Begun(s, r)) &&
    (forall r | r in s.returned :: Begun(s, r) && HasBlobs(s, r) && (SlotOf(r) in s.evicted || Kept(s, r))) &&
    s.evicted !! s.memory.Keys &&
    (forall id | id in s.disk.wal :: id in s.written || (s.pc.FillingWal? && id == s.pc.id))
  }

  lemma ReferencedContains(d: Disk, r: WalRecord)
    requires IsStore(r) && Indexed(d, r)
    ensures BlobsOf(r) <= Referenced(d)
  {
    forall b | b in BlobsOf(r) ensures b in Referenced(d) { assert SlotOf(r) in d.index; }
  }

  /** An entry that is not evicted by the step stays kept. */
  lemma KeptStep(s: State, a: Action, r: WalRecord)
    requires Inv(s) && Enabled(s, a) && r in s.returned && SlotOf(r) !in Apply(s, a).evicted
    ensures Kept(Apply(s, a), r)
  {
    var t := Apply(s, a);
    assert Kept(s, r);
    if Logged(s.disk, r) && !a.DropWal? {
      var id :| id in s.disk.wal && s.disk.wal[id] == Some(r);
      assert t.disk.wal[id] == Some(r);
    }
    if a.Collect? { ReferencedContains(s.disk, r); }
  }

  lemma HasBlobsStep(s: State, a: Action, r: WalRecord)
    requires Inv(s) && Enabled(s, a) && r in s.returned
    ensures HasBlobs(Apply(s, a), r)
  {
    var t := Apply(s, a);
    assert HasBlobs(s, r) && (SlotOf(r) in s.evicted || Kept(s, r));
    if Logged(t.disk, r) {
      var id :| id in t.disk.wal && t.disk.wal[id] == Some(r);
      assert a.FillWal? || s.disk.wal[id] == Some(r);
    }
    if a.Collect? {
      if Indexed(s.disk, r) { ReferencedContains(s.disk, r); }
    }
  }

  lemma PcStep(s: State, a: Action)
    requires Inv(s) && Enabled(s, a)
    ensures PcInv(Apply(s, a)) && SaveInv(Apply(s, a))
  {
    var t := Apply(s, a);
    match a
    case FillWal => assert t.disk.wal[s.pc.id] == Some(s.pc.r);
    case Remember =>
      var id :| id in s.disk.wal && s.disk.wal[id] == Some(s.pc.r);
      assert t.disk.wal[id] == Some(s.pc.r);
    case _ =>
  }

  lemma StepInv(s: State, a: Action)
    requires Inv(s) && Enabled(s, a)
    ensures Inv(Apply(s, a))
  {
    var t := Apply(s, a);
    PcStep(s, a);
    forall r | r in t.returned ensures Begun(t, r) && HasBlobs(t, r) && (SlotOf(r) in t.evicted || Kept(t, r)) {
      if r in s.returned {
        HasBlobsStep(s, a, r);
        if SlotOf(r) !in t.evicted { KeptStep(s, a, r); }
      }
    }
  }

  lemma {:induction false} RunInv(states: seq<State>, actions: seq<Action>, n: nat)
    requires IsRun(states, actions) && n < |states|
    ensures Inv(states[n])
  {
    if n > 0 {
      RunInv(states, actions, n - 1);
      StepInv(states[n - 1], actions[n - 1]);
    }
  }

  // ---- the main results

  lemma {:induction false} ReplayKeeps(index: Index, log: seq<WalRecord>, r: WalRecord)
    requires IsStore(r)
    requires forall q | q in log && IsStore(q) && SlotOf(q) == SlotOf(r) :: q == r
    requires r in log || (SlotOf(r) in index && index[SlotOf(r)] == r)
    ensures SlotOf(r) in Replay(index, log) && Replay(index, log)[SlotOf(r)] == r
  {
    if log != [] {
      var n := |log| - 1;
      assert log == log[..n] + [log[n]];
      if log[n] != r { ReplayKeeps(index, log[..n], r); }
    }
  }

  /** What a replay puts in a slot is a record of the log or was there before. */
  lemma {:induction false} ReplayInvents(index: Index, log: seq<WalRecord>, slot: Slot)
    requires slot in Replay(index, log)
    ensures (slot in index && Replay(index, log)[slot] == index[slot]) || Replay(index, log)[slot] in log
  {
    if log != [] {
      var n := |log| - 1;
      assert log == log[..n] + [log[n]];
      if !IsStore(log[n]) || SlotOf(log[n]) != slot { ReplayInvents(index, log[..n], slot); }
    }
  }

  lemma {:induction false} SomeLog(wal: map<nat, Option<WalRecord>>) returns (log: seq<WalRecord>)
    ensures Lists(wal, log)
    decreases |wal|
  {
    if wal == map[] {
      log := [];
    } else {
      var id :| id in wal;
      var rest := SomeLog(wal - {id});
      log := if wal[id].Some? then rest + [wal[id].value] else rest;
      forall r ensures r in log <==> exists i | i in wal :: wal[i] == Some(r) {
        if i :| i in wal && wal[i] == Some(r) && i != id { assert (wal - {id})[i] == Some(r); }
      }
    }
  }

  /** A record on disk is one that a log file holds or a meta. */
  ghost predicate Present(d: Disk, r: WalRecord)
    requires IsStore(r)
  {
    Logged(d, r) || Indexed(d, r)
  }

  /** Wherever the writer dies, an entry whose store returned is found again by a reload,
      with the same hashes and with its blob, exactly when a log file or a meta holds it. */
  lemma RecoveredExactlyIfPresent(states: seq<State>, actions: seq<Action>, n: nat, r: WalRecord)
    requires IsRun(states, actions) && n < |states| && r in states[n].returned
    ensures IsStore(r) && (Recovered(states[n].disk, r) <==> Present(states[n].disk, r))
  {
    var s := states[n];
    RunInv(states, actions, n);
    assert Begun(s, r) && HasBlobs(s, r);
    if Present(s.disk, r) {
      forall log | IsLog(s.disk, log)
        ensures SlotOf(r) in Replay(s.disk.index, log) && Replay(s.disk.index, log)[SlotOf(r)] == r
      {
        forall q | q in log && IsStore(q) && SlotOf(q) == SlotOf(r) ensures q == r { assert Begun(s, q); }
        ReplayKeeps(s.disk.index, log, r);
      }
    }
    if Recovered(s.disk, r) {
      var log := SomeLog(s.disk.wal);
      assert IsLog(s.disk, log);
      ReplayInvents(s.disk.index, log, SlotOf(r));
    }
  }

  /** The step removes the last log file that holds `r`, and no meta holds it. */
  ghost predicate Loses(s: State, a: Action, r: WalRecord) {
    IsStore(r) && a.DropWal? && a.id in s.disk.wal && s.disk.wal[a.id] == Some(r) && !Indexed(s.disk, r) &&
    forall id | id in s.disk.wal && id != a.id :: s.disk.wal[id] != Some(r)
  }

  lemma PresentStep(s: State, a: Action, r: WalRecord)
    requires Inv(s) && Enabled(s, a) && r in s.returned
    ensures r in Apply(s, a).returned
    ensures IsStore(r) && (Present(Apply(s, a).disk, r) <==> Present(s.disk, r) && !Loses(s, a, r))
  {
    var t := Apply(s, a);
    assert Begun(s, r) && (SlotOf(r) in s.evicted || Kept(s, r));
    if Logged(s.disk, r) {
      var id :| id in s.disk.wal && s.disk.wal[id] == Some(r);
      if !(a.DropWal? && a.id == id) { assert t.disk.wal[id] == Some(r); }
      if i :| i in s.disk.wal && s.disk.wal[i] == Some(r) && a.DropWal? && i != a.id {
        assert t.disk.wal[i] == Some(r);
      }
    }
    if Logged(t.disk, r) {
      var id :| id in t.disk.wal && t.disk.wal[id] == Some(r);
      assert s.disk.wal[id] == Some(r);
    }
  }

  lemma {:induction false} PresentOnRun(states: seq<State>, actions: seq<Action>, m: nat, n: nat, r: WalRecord)
    requires IsRun(states, actions) && m <= n < |states| && r in states[m].returned
    requires IsStore(r) && Present(states[m].disk, r)
    ensures r in states[n].returned
    ensures Present(states[n].disk, r) <==> forall i | m <= i < n :: !Loses(states[i], actions[i], r)
  {
    hide Present, Loses, Inv, Enabled, Apply, Init;
    if m < n {
      PresentOnRun(states, actions, m, n - 1, r);
      RunInv(states, actions, n - 1);
      PresentStep(states[n - 1], actions[n - 1], r);
    }
  }

  /** Of an entry whose store returned at step `m`, a crash at any later point loses
      nothing, unless a step in between removed its last log file when no meta held it. */
  lemma CrashLosesExactlyDroppedEntries(states: seq<State>, actions: seq<Action>, m: nat, n: nat)
    requires IsRun(states, actions) && m < n < |states| && actions[m] == Return
    ensures states[m].pc.Trimming? && IsStore(states[m].pc.r) && states[m].pc.r in states[n].returned
    ensures var r := states[m].pc.r;
      Recovered(states[n].disk, r) <==> forall i | m < i < n :: !Loses(states[i], actions[i], r)
  {
    var r := states[m].pc.r;
    RunInv(states, actions, m);
    assert Begun(states[m], r) && Logged(states[m].disk, r);
    assert states[m + 1] == Apply(states[m], Return);
    PresentOnRun(states, actions, m + 1, n, r);
    RecoveredExactlyIfPresent(states, actions, n, r);
  }

  /** Such a step is part of a save, and the entry had been evicted from memory. */
  lemma OnlyEvictedEntriesAreDropped(states: seq<State>, actions: seq<Action>, i: nat, r: WalRecord)
    requires IsRun(states, actions) && i < |actions| && r in states[i].returned && Loses(states[i], actions[i], r)
    ensures states[i].pc.DroppingWals? && SlotOf(r) in states[i].evicted
  {
    RunInv(states, actions, i);
    assert SlotOf(r) in states[i].evicted || Kept(states[i], r);
  }

  /** So an entry that is not evicted is never lost. */
  lemma CrashLosesNothingKept(states: seq<State>, actions: seq<Action>, n: nat, r: WalRecord)
    requires IsRun(states, actions) && n < |states| && r in states[n].returned
    ensures IsStore(r) && (Recovered(states[n].disk, r) || SlotOf(r) in states[n].evicted)
  {
    RunInv(states, actions, n);
    assert Begun(states[n], r) && (SlotOf(r) in states[n].evicted || Kept(states[n], r));
    RecoveredExactlyIfPresent(states, actions, n, r);
  }

  /** A completed save leaves exactly the earlier index overlaid with what memory holds,
      and no log: an entry evicted before the save is in neither. */
  lemma SaveKeepsExactlyMemory(states: seq<State>, actions: seq<Action>, n: nat)
    requires IsRun(states, actions) && n < |actions| && actions[n] == EndSave
    ensures states[n].pc.DroppingWals? && states[n + 1].disk.wal == map[]
    ensures states[n + 1].disk.index == states[n].pc.before + states[n].memory
  {
    RunInv(states, actions, n);
    var s := states[n];
    assert states[n + 1] == Apply(s, EndSave);
    assert s.disk.index == s.pc.before + s.memory;
  }

  /** The exact condition after a save: a returned entry survives if and only if it was
      still in memory or already indexed when the save began. */
  lemma SurvivesASaveExactlyIfInMemory(states: seq<State>, actions: seq<Action>, n: nat, r: WalRecord)
    requires IsRun(states, actions) && n < |actions| && actions[n] == EndSave && r in states[n].returned
    ensures states[n].pc.DroppingWals? && IsStore(r)
    ensures Recovered(states[n + 1].disk, r) <==>
      (var all := states[n].pc.before + states[n].memory; SlotOf(r) in all && all[SlotOf(r)] == r)
  {
    SaveKeepsExactlyMemory(states, actions, n);
    assert states[n + 1] == Apply(states[n], EndSave);
    RecoveredExactlyIfPresent(states, actions, n + 1, r);
  }

  // ---- an entry that is lost

  function Empty(): State {
    State(Disk({}, map[], map[]), map[], {}, Idle, map[], {}, {})
  }

  /** The state in which `r` was stored, and evicted before its store returned. */
  function StoredAndEvicted(r: WalRecord): State
    requires IsStore(r)
  {
    State(Disk(BlobsOf(r), map[], map[0 := Some(r)]), map[], {0}, Idle, map[SlotOf(r) := r], {r}, {SlotOf(r)})
  }

  /** `r` is logged and about to be remembered. */
  function StoredOnDisk(r: WalRecord): State
    requires IsStore(r)
  {
    State(Disk(BlobsOf(r), map[], map[0 := Some(r)]), map[], {0}, Remembering(r), map[SlotOf(r) := r], {}, {})
  }

  lemma Storing(r: WalRecord) returns (states: seq<State>, actions: seq<Action>)
    requires IsStore(r)
    ensures Follows(states, actions) && states[0] == Empty() && states[|actions|] == StoredOnDisk(r)
  {
    actions := [BeginStore(r), PutBlob, MakeWal(0), FillWal];
    var s1 := Apply(Empty(), BeginStore(r));
    var s2 := Apply(s1, PutBlob);
    var s3 := Apply(s2, MakeWal(0));
    states := [Empty(), s1, s2, s3, Apply(s3, FillWal)];
  }

  lemma Evicting(r: WalRecord) returns (states: seq<State>, actions: seq<Action>)
    requires IsStore(r)
    ensures Follows(states, actions) && states[0] == StoredOnDisk(r) && states[|actions|] == StoredAndEvicted(r)
    ensures |actions| == 3 && actions[2] == Return && states[2].pc == Trimming(r)
  {
    actions := [Remember, Evict(SlotOf(r)), Return];
    var s1 := Apply(StoredOnDisk(r), Remember);
    var s2 := Apply(s1, Evict(SlotOf(r)));
    states := [StoredOnDisk(r), s1, s2, Apply(s2, Return)];
  }

  lemma SavingAfterwards(r: WalRecord) returns (states: seq<State>, actions: seq<Action>)
    requires IsStore(r)
    ensures Follows(states, actions) && states[0] == StoredAndEvicted(r)
    ensures !Present(states[|actions|].disk, r)
  {
    hide Referenced;
    actions := [BeginSave, EndMetas, Collect, EndSweep, DropWal(0)];
    var s0 := StoredAndEvicted(r);
    var s1 := Apply(s0, BeginSave);
    assert s1.pc.rest == {};
    var s2 := Apply(s1, EndMetas);
    var s3 := Apply(s2, Collect);
    var s4 := Apply(s3, EndSweep);
    var s5 := Apply(s4, DropWal(0));
    assert s5.disk.wal == map[];
    states := [s0, s1, s2, s3, s4, s5];
  }

  lemma FollowsBoth(a: seq<State>, x: seq<Action>, b: seq<State>, y: seq<Action>)
    requires Follows(a, x) && Follows(b, y) && a[|x|] == b[0]
    ensures Follows(a + b[1..], x + y)
  {
    hide Enabled, Apply;
    var states, actions := a + b[1..], x + y;
    forall i | 0 <= i < |actions|
      ensures Enabled(states[i], actions[i]) && states[i + 1] == Apply(states[i], actions[i])
    {
      if i >= |x| {
        assert actions[i] == y[i - |x|] && states[i] == b[i - |x|] && states[i + 1] == b[i - |x| + 1];
      }
    }
  }

  /** Every record can be lost so: its store returns, and it is gone after a save. */
  lemma AnEvictedEntryIsLost(r: WalRecord) returns (states: seq<State>, actions: seq<Action>, m: nat)
    requires IsStore(r)
    ensures IsRun(states, actions) && m < |actions| && actions[m] == Return && states[m].pc == Trimming(r)
    ensures !Recovered(states[|actions|].disk, r)
  {
    hide Enabled, Apply, Recovered, StoredOnDisk, StoredAndEvicted;
    var stored, x := Storing(r);
    var evicted, y := Evicting(r);
    var saved, z := SavingAfterwards(r);
    FollowsBoth(stored, x, evicted, y);
    FollowsBoth(stored + evicted[1..], x + y, saved, z);
    states, actions, m := stored + evicted[1..] + saved[1..], x + y + z, |x| + 2;
    CrashLosesExactlyDroppedEntries(states, actions, m, |actions|);
    RecoveredExactlyIfPresent(states, actions, |actions|, r);
  }
}
