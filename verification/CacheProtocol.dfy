/**
  The shared on-disk cache as a transition system: any number of cache instances
  store, save, load, look up, evict, collect garbage and crash in any order.
*/
module CacheProtocol {
  import opened Wrappers
  import opened Ast
  import opened CacheTypes

  // Every step is one file operation.  What a lookup returns was stored, under the same
  // path and hashes.  Assumptions: encoding is a pair of inverses, and neither blob hashes
  // nor key hashes collide (`Sound`); a file is replaced by one atomic rename.

  type Bytes = seq<nat>

  datatype ParsedFile = ParsedFile(program: seq<Statement>, exports: seq<string>, localImports: seq<string>)

  datatype Codec = Codec(encode: ParsedFile -> Bytes, decode: Bytes -> Option<ParsedFile>,
                         blobHash: Bytes -> BlobHash, keyHash: Key -> nat)

  ghost predicate Sound(c: Codec) {
    (forall p :: c.decode(c.encode(p)) == Some(p)) &&
    (forall x, y | c.blobHash(x) == c.blobHash(y) :: x == y) &&
    (forall j, k | c.keyHash(j) == c.keyHash(k) :: j == k)
  }

  /** One call of `store_file`. */
  datatype Stored = Stored(key: Key, hash: nat, hash2: nat, file: ParsedFile)

  datatype Task =
    | Idle
    | WritingBlob(meta: FileMeta, bytes: Bytes)
    | CreatingWal(meta: FileMeta)
    | FillingWal(meta: FileMeta, id: nat)
    | Remembering(meta: FileMeta)
    | Fetching(key: Key, meta: FileMeta, hash: nat, hash2: nat)

  datatype Instance = Instance(files: map<Key, FileMeta>, task: Task)

  datatype State = State(blobs: map<BlobHash, Bytes>, metas: map<nat, FileMeta>, wal: map<nat, seq<WalRecord>>,
                         instances: map<nat, Instance>, history: set<Stored>)

  datatype Action =
    | Open(i: nat)
    | LoadMeta(i: nat, slot: nat)
    | LoadWal(i: nat, id: nat, n: nat)
    | BeginStore(i: nat, what: Stored)
    | StoreBlob(i: nat)
    | CreateWal(i: nat, id: nat)
    | SkipWal(i: nat)
    | FillWal(i: nat)
    | Remember(i: nat)
    | Evict(i: nat, key: Key)
    | SaveMeta(i: nat, key: Key)
    | FindWarm(i: nat, key: Key, hash: nat, hash2: nat)
    | FindCold(i: nat, key: Key, hash: nat, hash2: nat)
    | ReadBlob(i: nat)
    | Crash(i: nat)
    | DropWal(id: nat)
    | DropBlob(blob: BlobHash)
    | OtherBlob(bytes: Bytes)

  function MetaOf(c: Codec, what: Stored): FileMeta {
    FileMeta(what.key, what.hash, what.hash2, c.blobHash(c.encode(what.file)))
  }

  predicate OfInstance(a: Action) {
    !a.DropWal? && !a.DropBlob? && !a.OtherBlob?
  }

  predicate Enabled(c: Codec, s: State, a: Action) {
    (OfInstance(a) && !a.Open? ==> a.i in s.instances) &&
    match a
    case Open(i) => i !in s.instances
    case LoadMeta(i, slot) => slot in s.metas && s.instances[i].task.Idle?
    case LoadWal(i, id, n) =>
      id in s.wal && n < |s.wal[id]| && s.wal[id][n].StoreFile? && s.instances[i].task.Idle?
    case BeginStore(i, what) => s.instances[i].task.Idle?
    case StoreBlob(i) => s.instances[i].task.WritingBlob?
    case CreateWal(i, id) => s.instances[i].task.CreatingWal? && id !in s.wal
    case SkipWal(i) => s.instances[i].task.CreatingWal?
    case FillWal(i) => s.instances[i].task.FillingWal?
    case Remember(i) => s.instances[i].task.Remembering?
    case Evict(i, key) => true
    case SaveMeta(i, key) => key in s.instances[i].files
    case FindWarm(i, key, hash, hash2) =>
      s.instances[i].task.Idle? && key in s.instances[i].files &&
      s.instances[i].files[key].hash == hash && s.instances[i].files[key].hash2 == hash2
    case FindCold(i, key, hash, hash2) =>
      s.instances[i].task.Idle? && key !in s.instances[i].files && c.keyHash(key) in s.metas &&
      s.metas[c.keyHash(key)].hash == hash && s.metas[c.keyHash(key)].hash2 == hash2
    case ReadBlob(i) => s.instances[i].task.Fetching?
    case Crash(i) => true
    case _ => true
  }

  function Update(s: State, i: nat, files: map<Key, FileMeta>, task: Task): State {
    s.(instances := s.instances[i := Instance(files, task)])
  }

  function Apply(c: Codec, s: State, a: Action): State
    requires Enabled(c, s, a)
  {
    match a
    case Open(i) => Update(s, i, map[], Idle)
    case LoadMeta(i, slot) =>
      Update(s, i, s.instances[i].files[s.metas[slot].key := s.metas[slot]], Idle)
    case LoadWal(i, id, n) =>
      var m := s.wal[id][n].file;
      Update(s, i, s.instances[i].files[m.key := m], Idle)
    case BeginStore(i, what) =>
      Update(s, i, s.instances[i].files, WritingBlob(MetaOf(c, what), c.encode(what.file)))
        .(history := s.history + {what})
    case StoreBlob(i) =>
      var t := s.instances[i].task;
      Update(s, i, s.instances[i].files, CreatingWal(t.meta))
        .(blobs := if t.meta.blob in s.blobs then s.blobs else s.blobs[t.meta.blob := t.bytes])
    case CreateWal(i, id) =>
      Update(s, i, s.instances[i].files, FillingWal(s.instances[i].task.meta, id)).(wal := s.wal[id := []])
    case SkipWal(i) => Update(s, i, s.instances[i].files, Remembering(s.instances[i].task.meta))
    case FillWal(i) =>
      var t := s.instances[i].task;
      Update(s, i, s.instances[i].files, Remembering(t.meta)).(wal := s.wal[t.id := [StoreFile(t.meta)]])
    case Remember(i) =>
      var m := s.instances[i].task.meta;
      Update(s, i, s.instances[i].files[m.key := m], Idle)
    case Evict(i, key) => Update(s, i, s.instances[i].files - {key}, s.instances[i].task)
    case SaveMeta(i, key) =>
      s.(metas := s.metas[c.keyHash(key) := s.instances[i].files[key].(key := key)])
    case FindWarm(i, key, hash, hash2) =>
      Update(s, i, s.instances[i].files, Fetching(key, s.instances[i].files[key], hash, hash2))
    case FindCold(i, key, hash, hash2) =>
      var m := s.metas[c.keyHash(key)];
      Update(s, i, s.instances[i].files[key := m], Fetching(key, m, hash, hash2))
    case ReadBlob(i) => Update(s, i, s.instances[i].files, Idle)
    case Crash(i) => s.(instances := s.instances - {i})
    case DropWal(id) => s.(wal := s.wal - {id})
    case DropBlob(blob) => s.(blobs := s.blobs - {blob})
    case OtherBlob(bytes) => s.(blobs := s.blobs[c.blobHash(bytes) := bytes])
  }

  /** What `cached_file` returns when it reads the blob. */
  function Answer(c: Codec, s: State, i: nat): Option<ParsedFile>
    requires i in s.instances && s.instances[i].task.Fetching?
  {
    var blob := s.instances[i].task.meta.blob;
    if blob in s.blobs then c.decode(s.blobs[blob]) else None
  }

  predicate Init(s: State) {
    s == State(map[], map[], map[], map[], {})
  }

  ghost predicate IsRun(c: Codec, states: seq<State>, actions: seq<Action>) {
    |states| == |actions| + 1 && Init(states[0]) &&
    forall i | 0 <= i < |actions| :: Enabled(c, states[i], actions[i]) && states[i + 1] == Apply(c, states[i], actions[i])
  }

  // ---- the invariant

  /** The meta describes a file somebody stored. */
  ghost predicate Genuine(c: Codec, s: State, m: FileMeta) {
    exists what | what in s.history :: m == MetaOf(c, what)
  }

  ghost predicate TaskInv(c: Codec, s: State, t: Task) {
    (!t.Idle? ==> Genuine(c, s, t.meta)) &&
    (t.WritingBlob? ==> t.meta.blob == c.blobHash(t.bytes)) &&
    (t.Fetching? ==> t.meta.key == t.key && t.meta.hash == t.hash && t.meta.hash2 == t.hash2)
  }

  ghost predicate InstanceInv(c: Codec, s: State, inst: Instance) {
    TaskInv(c, s, inst.task) &&
    forall k | k in inst.files :: inst.files[k].key == k && Genuine(c, s, inst.files[k])
  }

  ghost predicate LogInv(c: Codec, s: State, log: seq<WalRecord>) {
    forall r | r in log && r.StoreFile? :: Genuine(c, s, r.file)
  }

  ghost predicate Inv(c: Codec, s: State) {
    (forall h | h in s.blobs :: c.blobHash(s.blobs[h]) == h) &&
    (forall slot | slot in s.metas :: c.keyHash(s.metas[slot].key) == slot && Genuine(c, s, s.metas[slot])) &&
    (forall id | id in s.wal :: LogInv(c, s, s.wal[id])) &&
    (forall i | i in s.instances :: InstanceInv(c, s, s.instances[i]))
  }

  lemma GenuineStays(c: Codec, s: State, t: State, m: FileMeta)
    requires Genuine(c, s, m) && s.history <= t.history
    ensures Genuine(c, t, m)
  {
  }

  /** Everything the step does not touch keeps its part of the invariant. */
  lemma Untouched(c: Codec, s: State, t: State)
    requires Inv(c, s) && s.history <= t.history
    ensures forall slot | slot in s.metas :: Genuine(c, t, s.metas[slot])
    ensures forall id | id in s.wal :: LogInv(c, t, s.wal[id])
    ensures forall i | i in s.instances :: InstanceInv(c, t, s.instances[i])
  {
    forall m | Genuine(c, s, m) ensures Genuine(c, t, m) { GenuineStays(c, s, t, m); }
  }

  lemma UntouchedDisk(c: Codec, s: State, t: State)
    requires Inv(c, s) && s.history <= t.history
    ensures forall slot | slot in s.metas :: Genuine(c, t, s.metas[slot])
    ensures forall id | id in s.wal :: LogInv(c, t, s.wal[id])
  {
    Untouched(c, s, t);
  }

  lemma OneRecord(c: Codec, s: State, m: FileMeta)
    requires Genuine(c, s, m)
    ensures LogInv(c, s, [StoreFile(m)])
  {
  }

  lemma NoRecord(c: Codec, s: State)
    ensures LogInv(c, s, [])
  {
  }

  lemma DiskStep(c: Codec, s: State, a: Action)
    requires Sound(c) && Inv(c, s) && Enabled(c, s, a)
    ensures var t := Apply(c, s, a);
      (forall h | h in t.blobs :: c.blobHash(t.blobs[h]) == h) &&
      (forall slot | slot in t.metas :: c.keyHash(t.metas[slot].key) == slot && Genuine(c, t, t.metas[slot])) &&
      (forall id | id in t.wal :: LogInv(c, t, t.wal[id]))
  {
    hide Genuine, MetaOf, LogInv;
    var t := Apply(c, s, a);
    UntouchedDisk(c, s, t);
    if a.SaveMeta? {
      var m := s.instances[a.i].files[a.key];
      assert InstanceInv(c, s, s.instances[a.i]);
      assert m.(key := a.key) == m;
      GenuineStays(c, s, t, m);
    }
    if a.FillWal? {
      assert InstanceInv(c, s, s.instances[a.i]);
      GenuineStays(c, s, t, s.instances[a.i].task.meta);
      OneRecord(c, t, s.instances[a.i].task.meta);
    }
    if a.CreateWal? { NoRecord(c, t); }
    if a.StoreBlob? { assert InstanceInv(c, s, s.instances[a.i]); }
  }

  lemma InstanceStep(c: Codec, s: State, a: Action)
    requires Sound(c) && Inv(c, s) && Enabled(c, s, a)
    requires OfInstance(a) && !a.Crash?
    ensures a.i in Apply(c, s, a).instances
    ensures InstanceInv(c, Apply(c, s, a), Apply(c, s, a).instances[a.i])
  {
    var t := Apply(c, s, a);
    Untouched(c, s, t);
    match a
    case LoadMeta(i, slot) => assert Genuine(c, t, s.metas[slot]);
    case LoadWal(i, id, n) => assert s.wal[id][n] in s.wal[id]; assert LogInv(c, t, s.wal[id]);
    case BeginStore(i, what) => assert Genuine(c, t, MetaOf(c, what));
    case FindCold(i, key, hash, hash2) =>
      var m := s.metas[c.keyHash(key)];
      assert m.key == key && Genuine(c, t, m);
    case _ =>
  }

  lemma StepInv(c: Codec, s: State, a: Action)
    requires Sound(c) && Inv(c, s) && Enabled(c, s, a)
    ensures Inv(c, Apply(c, s, a))
  {
    hide Genuine, MetaOf, LogInv, InstanceInv;
    var t := Apply(c, s, a);
    DiskStep(c, s, a);
    Untouched(c, s, t);
    if OfInstance(a) && !a.Crash? { InstanceStep(c, s, a); }
    forall i | i in t.instances ensures InstanceInv(c, t, t.instances[i]) {
      if !(OfInstance(a) && !a.Crash? && i == a.i) { assert t.instances[i] == s.instances[i]; }
    }
  }

  lemma {:induction false} RunInv(c: Codec, states: seq<State>, actions: seq<Action>, n: nat)
    requires Sound(c) && IsRun(c, states, actions) && n < |states|
    ensures Inv(c, states[n])
  {
    if n > 0 {
      RunInv(c, states, actions, n - 1);
      StepInv(c, states[n - 1], actions[n - 1]);
    }
  }

  lemma {:induction false} HistoryIsCalls(c: Codec, states: seq<State>, actions: seq<Action>, n: nat, what: Stored)
    requires IsRun(c, states, actions) && n < |states| && what in states[n].history
    ensures exists k, i: nat | 0 <= k < n :: actions[k] == BeginStore(i, what)
  {
    if what in states[n - 1].history {
      HistoryIsCalls(c, states, actions, n - 1, what);
    } else {
      assert actions[n - 1] == BeginStore(actions[n - 1].i, what);
    }
  }

  /** Whatever a lookup returns was given to an earlier `store_file` call for the same
      path and the same two hashes, whoever made it and whatever happened in between. */
  lemma EveryHitWasStored(c: Codec, states: seq<State>, actions: seq<Action>, n: nat)
    requires Sound(c) && IsRun(c, states, actions) && n < |actions| && actions[n].ReadBlob?
    ensures var i := actions[n].i;
      i in states[n].instances && states[n].instances[i].task.Fetching? &&
      (Answer(c, states[n], i).Some? ==>
       var t := states[n].instances[i].task;
       exists k, j: nat | 0 <= k < n ::
         actions[k] == BeginStore(j, Stored(t.key, t.hash, t.hash2, Answer(c, states[n], i).value)))
  {
    var s, i := states[n], actions[n].i;
    RunInv(c, states, actions, n);
    assert InstanceInv(c, s, s.instances[i]);
    var t := s.instances[i].task;
    var what :| what in s.history && t.meta == MetaOf(c, what);
    if t.meta.blob in s.blobs {
      assert s.blobs[t.meta.blob] == c.encode(what.file);
      HistoryIsCalls(c, states, actions, n, what);
    }
  }

  /** Without the assumption on key hashes a lookup can answer with another path's file:
      the meta is found by the hash of the key and its own key is never compared. */
  lemma KeyCollisionCrossesPaths(c: Codec, s: State, i: nat, key: Key, what: Stored)
    requires (forall p :: c.decode(c.encode(p)) == Some(p)) && c.keyHash(key) == c.keyHash(what.key) && key != what.key
    requires i in s.instances && s.instances[i].task.Idle? && key !in s.instances[i].files
    requires c.keyHash(key) in s.metas && s.metas[c.keyHash(key)] == MetaOf(c, what)
    requires MetaOf(c, what).blob in s.blobs && s.blobs[MetaOf(c, what).blob] == c.encode(what.file)
    ensures var a := FindCold(i, key, what.hash, what.hash2);
      Enabled(c, s, a) && Enabled(c, Apply(c, s, a), ReadBlob(i)) &&
      Answer(c, Apply(c, s, a), i) == Some(what.file)
  {
  }
}
