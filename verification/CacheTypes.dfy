/** The records of the incremental cache.  A blob hash names the blob that holds the payload. */
module CacheTypes {
  import opened Wrappers

  type Key = string
  type BlobHash = nat

  datatype FileMeta = FileMeta(key: Key, hash: nat, hash2: nat, blob: BlobHash)
  datatype AnalysisMeta = AnalysisMeta(key: Key, fingerprint: nat, blob: BlobHash)
  datatype BuildMeta = BuildMeta(key: Key, fingerprint: nat)
  datatype MirMeta = MirMeta(key: Key, bodyHash: nat, blob: BlobHash)

  datatype WalRecord =
    | StoreFile(file: FileMeta)
    | StoreAnalysis(analysis: AnalysisMeta)
    | StoreBuild(build: BuildMeta)
    | StoreMir(mir: MirMeta)
    | DeleteFile(key: Key)
    | DeleteAnalysis(key: Key)
    | DeleteBuild(key: Key)
    | DeleteMir(key: Key)
    | Checkpoint

  /** The four maps of a cache. */
  datatype Tables = Tables(files: map<Key, FileMeta>, analyses: map<Key, AnalysisMeta>,
                           builds: map<Key, BuildMeta>, mirs: map<Key, MirMeta>)

  function AllKeys(t: Tables): set<Key> {
    t.files.Keys + t.analyses.Keys + t.builds.Keys + t.mirs.Keys
  }

  function Total(t: Tables): nat {
    |t.files| + |t.analyses| + |t.builds| + |t.mirs|
  }

  /** What one log record does to the maps. */
  function Applied(t: Tables, r: WalRecord): Tables {
    match r
    case StoreFile(m) => t.(files := t.files[m.key := m])
    case StoreAnalysis(m) => t.(analyses := t.analyses[m.key := m])
    case StoreBuild(m) => t.(builds := t.builds[m.key := m])
    case StoreMir(m) => t.(mirs := t.mirs[m.key := m])
    case DeleteFile(k) => t.(files := t.files - {k})
    case DeleteAnalysis(k) => t.(analyses := t.analyses - {k})
    case DeleteBuild(k) => t.(builds := t.builds - {k})
    case DeleteMir(k) => t.(mirs := t.mirs - {k})
    case Checkpoint => t
  }

  function AppliedAll(t: Tables, rs: seq<WalRecord>): Tables {
    if rs == [] then t else Applied(AppliedAll(t, rs[..|rs| - 1]), rs[|rs| - 1])
  }

  // ---- what a log says about one entry

  datatype Item = FileItem(key: Key) | AnalysisItem(key: Key) | BuildItem(key: Key) | MirItem(key: Key)

  /** The entry that a record stores or deletes. */
  function ItemOf(r: WalRecord): Option<Item> {
    match r
    case StoreFile(m) => Some(FileItem(m.key))
    case StoreAnalysis(m) => Some(AnalysisItem(m.key))
    case StoreBuild(m) => Some(BuildItem(m.key))
    case StoreMir(m) => Some(MirItem(m.key))
    case DeleteFile(k) => Some(FileItem(k))
    case DeleteAnalysis(k) => Some(AnalysisItem(k))
    case DeleteBuild(k) => Some(BuildItem(k))
    case DeleteMir(k) => Some(MirItem(k))
    case Checkpoint => None
  }

  predicate IsStore(r: WalRecord) {
    r.StoreFile? || r.StoreAnalysis? || r.StoreBuild? || r.StoreMir?
  }

  /** The record that would store what the maps hold. */
  function Held(t: Tables, item: Item): Option<WalRecord> {
    match item
    case FileItem(k) => if k in t.files then Some(StoreFile(t.files[k])) else None
    case AnalysisItem(k) => if k in t.analyses then Some(StoreAnalysis(t.analyses[k])) else None
    case BuildItem(k) => if k in t.builds then Some(StoreBuild(t.builds[k])) else None
    case MirItem(k) => if k in t.mirs then Some(StoreMir(t.mirs[k])) else None
  }

  predicate Untouched(rs: seq<WalRecord>, item: Item) {
    forall r | r in rs :: ItemOf(r) != Some(item)
  }

  lemma OneRecord(t: Tables, r: WalRecord, item: Item)
    ensures ItemOf(r) != Some(item) ==> Held(Applied(t, r), item) == Held(t, item)
    ensures ItemOf(r) == Some(item) ==> Held(Applied(t, r), item) == if IsStore(r) then Some(r) else None
  {
    match item case _ =>
  }

  lemma LastIsUntouched(rs: seq<WalRecord>, item: Item)
    requires rs != [] && Untouched(rs, item)
    ensures Untouched(rs[..|rs| - 1], item) && ItemOf(rs[|rs| - 1]) != Some(item)
  {
  }

  lemma {:induction false} UntouchedEntryStays(t: Tables, rs: seq<WalRecord>, item: Item)
    requires Untouched(rs, item)
    ensures Held(AppliedAll(t, rs), item) == Held(t, item)
  {
    hide Untouched, Held, Applied, ItemOf;
    if rs != [] {
      var n := |rs| - 1;
      LastIsUntouched(rs, item);
      UntouchedEntryStays(t, rs[..n], item);
      OneRecord(AppliedAll(t, rs[..n]), rs[n], item);
    }
  }

  /** Of all records of one entry the last decides: what it stores is held, or nothing is. */
  lemma {:induction false} LastRecordWins(t: Tables, rs: seq<WalRecord>, item: Item, i: nat)
    requires i < |rs| && ItemOf(rs[i]) == Some(item) && Untouched(rs[i + 1..], item)
    ensures Held(AppliedAll(t, rs), item) == if IsStore(rs[i]) then Some(rs[i]) else None
  {
    hide Untouched, Held, Applied, ItemOf, IsStore;
    var n := |rs| - 1;
    OneRecord(AppliedAll(t, rs[..n]), rs[n], item);
    if i < n {
      LastIsUntouched(rs[i + 1..], item);
      assert rs[..n][i + 1..] == rs[i + 1..][..n - i - 1];
      LastRecordWins(t, rs[..n], item, i);
    }
  }
}
