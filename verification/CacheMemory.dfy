/**
  The in-memory half of the incremental cache: four maps, one recency list over
  their keys, and the eviction that keeps the maps within `maxUnits` entries.
*/
module CacheMemory {
  import opened Wrappers
  import opened Sequences
  import opened Lru
  import opened CacheTypes

  const DEFAULT_MAX_UNITS := 256

  datatype EntryKind = FileEntry | AnalysisEntry | BuildEntry | MirEntry

  /** Removes `key` from the first of the four maps that has it. */
  function RemoveFirst(t: Tables, key: Key): Tables {
    if key in t.files then t.(files := t.files - {key})
    else if key in t.analyses then t.(analyses := t.analyses - {key})
    else if key in t.builds then t.(builds := t.builds - {key})
    else t.(mirs := t.mirs - {key})
  }

  function RemoveEach(t: Tables, keys: seq<Key>): Tables {
    if keys == [] then t else RemoveFirst(RemoveEach(t, keys[..|keys| - 1]), keys[|keys| - 1])
  }

  lemma RemoveEachStep(t: Tables, order: seq<Key>, n: nat)
    requires n < |order|
    ensures RemoveEach(t, order[..n + 1]) == RemoveFirst(RemoveEach(t, order[..n]), order[n])
    ensures order[n..][0] == order[n] && order[n..][1..] == order[n + 1..]
  {
    assert order[..n + 1][..n] == order[..n];
  }

  lemma RemovalShrinks<K, V>(m: map<K, V>, k: K)
    requires k in m
    ensures |m - {k}| == |m| - 1
  {
    assert (m - {k}).Keys == m.Keys - {k};
    assert |m.Keys - {k}| == |m.Keys| - 1;
  }

  lemma RemoveFirstShrinks(t: Tables, key: Key)
    requires key in AllKeys(t)
    ensures Total(RemoveFirst(t, key)) == Total(t) - 1
    ensures forall k | k in AllKeys(t) && k != key :: k in AllKeys(RemoveFirst(t, key))
  {
    if key in t.files { RemovalShrinks(t.files, key); }
    else if key in t.analyses { RemovalShrinks(t.analyses, key); }
    else if key in t.builds { RemovalShrinks(t.builds, key); }
    else { RemovalShrinks(t.mirs, key); }
  }

  /** How many entries are over the limit, as far as the recency list can supply them. */
  function Surplus(total: nat, listed: nat, maxUnits: Option<nat>): (n: nat)
    ensures n <= listed && n <= total
    ensures maxUnits.Some? ==> total - n <= maxUnits.value || n == listed
    ensures maxUnits.Some? && 0 < n ==> maxUnits.value <= total - n
    ensures maxUnits.None? || total <= maxUnits.value ==> n == 0
  {
    if maxUnits.None? || total <= maxUnits.value then 0
    else if total - maxUnits.value <= listed then total - maxUnits.value
    else if listed <= total then listed else total
  }

  function KindOf(r: WalRecord): EntryKind {
    match r
    case StoreAnalysis(_) => AnalysisEntry
    case StoreBuild(_) => BuildEntry
    case StoreMir(_) => MirEntry
    case _ => FileEntry
  }

  function StoreKey(r: WalRecord): Key
    requires IsStore(r)
  {
    match r
    case StoreFile(m) => m.key
    case StoreAnalysis(m) => m.key
    case StoreBuild(m) => m.key
    case StoreMir(m) => m.key
  }

  /** The recency list after one log record. */
  function OrderAfter(order: seq<Key>, r: WalRecord, max: nat): seq<Key> {
    match r
    case DeleteFile(k) => Without(order, k)
    case DeleteAnalysis(k) => Without(order, k)
    case DeleteBuild(k) => Without(order, k)
    case DeleteMir(k) => Without(order, k)
    case Checkpoint => order
    case _ => Used(order, StoreKey(r), max)
  }

  /** The maps and the recency list once the surplus of `order` is evicted. */
  function Trimmed(t: Tables, order: seq<Key>, maxUnits: Option<nat>): (Tables, seq<Key>) {
    var n := Surplus(Total(t), |order|, maxUnits);
    (RemoveEach(t, order[..n]), order[n..])
  }

  ghost predicate SubTables(t: Tables, u: Tables) {
    t.files.Keys <= u.files.Keys && t.analyses.Keys <= u.analyses.Keys &&
    t.builds.Keys <= u.builds.Keys && t.mirs.Keys <= u.mirs.Keys
  }

  lemma RemoveFirstKeepsOthers(t: Tables, key: Key, k: Key)
    ensures SubTables(RemoveFirst(t, key), t)
    ensures k in AllKeys(t) && k != key ==> k in AllKeys(RemoveFirst(t, key))
  {
  }

  lemma {:induction false} RemoveEachKeepsOthers(t: Tables, keys: seq<Key>, k: Key)
    ensures SubTables(RemoveEach(t, keys), t)
    ensures k in AllKeys(t) && k !in keys ==> k in AllKeys(RemoveEach(t, keys))
  {
    hide RemoveFirst, AllKeys;
    if keys != [] {
      RemoveEachKeepsOthers(t, keys[..|keys| - 1], k);
      RemoveFirstKeepsOthers(RemoveEach(t, keys[..|keys| - 1]), keys[|keys| - 1], k);
      assert keys[|keys| - 1] in keys;
    }
  }

  /** A key that no map had before is gone once it is among the removed ones. */
  lemma {:induction false} StoredKeyIsRemoved(t: Tables, r: WalRecord, keys: seq<Key>)
    requires IsStore(r) && StoreKey(r) !in AllKeys(t) && StoreKey(r) in keys
    ensures StoreKey(r) !in AllKeys(RemoveEach(Applied(t, r), keys))
  {
    var n, k := |keys| - 1, StoreKey(r);
    var front := keys[..n];
    assert keys == front + [keys[n]];
    if k in front {
      StoredKeyIsRemoved(t, r, front);
    } else {
      RemoveEachKeepsOthers(Applied(t, r), front, k);
    }
  }

  lemma FreshKeyIsUsedLast(order: seq<Key>, key: Key, max: nat)
    requires key !in order && 0 < max
    ensures var after := Used(order, key, max); after[|after| - 1] == key && key !in after[..|after| - 1]
  {
    var after := Used(order, key, max);
    assert after == after[..|after| - 1] + [key];
    assert after[..|after| - 1] == order || after[..|after| - 1] == order[1..];
  }

  /** A newly stored entry is evicted again at once exactly when, after the store, as many
      entries are off the recency list as the cache may hold: entries that were loaded
      from their metas or that the list has dropped. */
  lemma NewEntryIsEvictedExactly(t: Tables, order: seq<Key>, r: WalRecord, maxUnits: nat)
    requires Distinct(order) && Elements(order) <= AllKeys(t) && |order| <= maxUnits
    requires IsStore(r) && StoreKey(r) !in AllKeys(t)
    ensures StoreKey(r) !in AllKeys(Trimmed(Applied(t, r), OrderAfter(order, r, maxUnits), Some(maxUnits)).0) <==>
      0 < maxUnits && maxUnits + |OrderAfter(order, r, maxUnits)| <= Total(t) + 1
  {
    hide RemoveEach, AllKeys, Applied, OrderAfter, Total, RemoveFirst;
    var k, u, after := StoreKey(r), Applied(t, r), OrderAfter(order, r, maxUnits);
    var n := Surplus(Total(u), |after|, Some(maxUnits));
    StoreThenRemove(t, r);
    RemoveFirstShrinks(u, k);
    UnusedKeyIsUnlisted(t, order, k);
    OrderAfterStore(order, r, maxUnits);
    RemoveEachKeepsOthers(u, after[..n], k);
    if maxUnits > 0 {
      FreshKeyIsUsedLast(order, k, maxUnits);
      if n < |after| {
        assert after[..n] == after[..|after| - 1][..n];
      } else {
        assert after[|after| - 1] in after[..n];
        StoredKeyIsRemoved(t, r, after[..n]);
      }
    }
  }

  lemma UnusedKeyIsUnlisted(t: Tables, order: seq<Key>, k: Key)
    requires Elements(order) <= AllKeys(t) && k !in AllKeys(t)
    ensures k !in order
  {
    assert forall x | x in order :: x in Elements(order);
  }

  lemma OrderAfterStore(order: seq<Key>, r: WalRecord, max: nat)
    requires IsStore(r)
    ensures OrderAfter(order, r, max) == Used(order, StoreKey(r), max)
    ensures max == 0 ==> OrderAfter(order, r, max) == order
  {
  }

  /** So in a cache reloaded with as many metas as it may hold, whatever is stored next is
      evicted at once. */
  lemma FullReloadEvictsEveryNewEntry(t: Tables, r: WalRecord, maxUnits: nat)
    requires IsStore(r) && StoreKey(r) !in AllKeys(t) && 0 < maxUnits <= Total(t)
    ensures Trimmed(Applied(t, r), OrderAfter([], r, maxUnits), Some(maxUnits)) == (t, [])
  {
    hide Applied, Total, RemoveFirst, AllKeys, OrderAfter, RemoveEach, Surplus;
    var k, after := StoreKey(r), Applied(t, r);
    StoreThenRemove(t, r);
    RemoveFirstShrinks(after, k);
    OrderAfterStore([], r, maxUnits);
    TrimmedToNothing(after, k, maxUnits);
    assert OrderAfter([], r, maxUnits) == [k];
  }

  lemma TrimmedToNothing(t: Tables, k: Key, maxUnits: nat)
    requires Total(t) > maxUnits > 0
    ensures Trimmed(t, [k], Some(maxUnits)) == (RemoveFirst(t, k), [])
  {
    assert [k][..1] == [k] && [k][..0] == [] && [k][1..] == [];
    assert RemoveEach(t, []) == t;
    assert RemoveEach(t, [k]) == RemoveFirst(RemoveEach(t, [k][..0]), [k][0]);
  }

  lemma StoreThenRemove(t: Tables, r: WalRecord)
    requires IsStore(r) && StoreKey(r) !in AllKeys(t)
    ensures RemoveFirst(Applied(t, r), StoreKey(r)) == t && StoreKey(r) in AllKeys(Applied(t, r))
  {
    match r
    case StoreFile(m) => assert t.files[m.key := m] - {m.key} == t.files;
    case StoreAnalysis(m) => assert t.analyses[m.key := m] - {m.key} == t.analyses;
    case StoreBuild(m) => assert t.builds[m.key := m] - {m.key} == t.builds;
    case StoreMir(m) => assert t.mirs[m.key := m] - {m.key} == t.mirs;
  }

  class IncrementalCache {
    var files: map<Key, FileMeta>
    var analyses: map<Key, AnalysisMeta>
    var builds: map<Key, BuildMeta>
    var mirs: map<Key, MirMeta>
    var evictions: nat
    const lru: LruMap<Key, EntryKind>
    const maxUnits: Option<nat>

    ghost function Maps(): Tables
      reads this
    {
      Tables(files, analyses, builds, mirs)
    }

    /** Every key on the recency list is a key of one of the maps. */
    ghost predicate Valid()
      reads this, lru
    {
      lru.Valid() && Elements(lru.order) <= AllKeys(Maps())
    }

    /** Starts from the metas on disk and replays the log over them. */
    constructor (disk: Tables, log: seq<WalRecord>, maxUnits: Option<nat>)
      ensures Valid() && fresh(lru) && this.maxUnits == maxUnits
      ensures lru.max == if maxUnits.Some? then maxUnits.value else DEFAULT_MAX_UNITS
      ensures Maps() == AppliedAll(disk, log)
    {
      files, analyses, builds, mirs := disk.files, disk.analyses, disk.builds, disk.mirs;
      evictions := 0;
      lru := new LruMap(if maxUnits.Some? then maxUnits.value else DEFAULT_MAX_UNITS);
      this.maxUnits := maxUnits;
      new;
      for i := 0 to |log|
        invariant Valid() && fresh(lru)
        invariant Maps() == AppliedAll(disk, log[..i])
      {
        assert log[..i + 1][..i] == log[..i];
        ApplyWalRecord(log[i]);
      }
      assert log[..|log|] == log;
    }

    method ApplyWalRecord(r: WalRecord)
      requires Valid()
      modifies this`files, this`analyses, this`builds, this`mirs, lru
      ensures Valid() && Maps() == Applied(old(Maps()), r)
      ensures lru.order == OrderAfter(old(lru.order), r, lru.max)
    {
      match r {
        case StoreFile(m) => files := files[m.key := m]; lru.Insert(m.key, FileEntry);
        case StoreAnalysis(m) => analyses := analyses[m.key := m]; lru.Insert(m.key, AnalysisEntry);
        case StoreBuild(m) => builds := builds[m.key := m]; lru.Insert(m.key, BuildEntry);
        case StoreMir(m) => mirs := mirs[m.key := m]; lru.Insert(m.key, MirEntry);
        case DeleteFile(k) => files := files - {k}; var _ := lru.Remove(k);
        case DeleteAnalysis(k) => analyses := analyses - {k}; var _ := lru.Remove(k);
        case DeleteBuild(k) => builds := builds - {k}; var _ := lru.Remove(k);
        case DeleteMir(k) => mirs := mirs - {k}; var _ := lru.Remove(k);
        case Checkpoint =>
      }
    }

    /** Storing a file, build or MIR entry. */
    method Store(r: WalRecord)
      requires Valid() && IsStore(r) && !r.StoreAnalysis?
      modifies this, lru
      ensures Valid() && WithinCapacity()
      ensures (Maps(), lru.order) ==
        Trimmed(Applied(old(Maps()), r), OrderAfter(old(lru.order), r, lru.max), maxUnits)
    {
      ApplyWalRecord(r);
      EnforceCapacity();
    }

    /** An analysis is stored under its own key and under the `latest` key of its source. */
    method StoreAnalysis(m: AnalysisMeta, latest: Key)
      requires Valid()
      modifies this, lru
      ensures Valid() && WithinCapacity()
      ensures var own, newest := WalRecord.StoreAnalysis(m), WalRecord.StoreAnalysis(m.(key := latest));
        (Maps(), lru.order) ==
        Trimmed(Applied(Applied(old(Maps()), own), newest),
                OrderAfter(OrderAfter(old(lru.order), own, lru.max), newest, lru.max), maxUnits)
    {
      ApplyWalRecord(WalRecord.StoreAnalysis(m));
      ApplyWalRecord(WalRecord.StoreAnalysis(m.(key := latest)));
      EnforceCapacity();
    }

    /** A lookup falls back to the meta on disk; only a hit counts as a use. */
    method CachedFile<P>(key: Key, hash: nat, hash2: nat, onDisk: Option<FileMeta>, payload: BlobHash -> Option<P>)
      returns (r: Option<P>)
      requires Valid()
      modifies this`files, lru
      ensures Valid()
      ensures var m := if key in old(files) then Some(old(files)[key]) else onDisk;
        r == (if m.Some? && m.value.hash == hash && m.value.hash2 == hash2 then payload(m.value.blob) else None)
      ensures files == if key !in old(files) && onDisk.Some? && onDisk.value.hash == hash && onDisk.value.hash2 == hash2
                       then old(files)[key := onDisk.value] else old(files)
      ensures lru.order == if r.Some? then Used(old(lru.order), key, lru.max) else old(lru.order)
    {
      var meta: FileMeta;
      if key in files {
        meta := files[key];
      } else {
        if onDisk.None? { return None; }
        meta := onDisk.value;
        if meta.hash != hash || meta.hash2 != hash2 { return None; }
        files := files[key := meta];
      }
      if meta.hash != hash || meta.hash2 != hash2 { return None; }
      r := payload(meta.blob);
      if r.Some? { lru.Insert(key, FileEntry); }
    }

    /** An analysis is found under a key that spells both hashes, so none are compared. */
    method CachedAnalysis<P>(key: Key, onDisk: Option<AnalysisMeta>, payload: BlobHash -> Option<P>)
      returns (r: Option<P>)
      requires Valid()
      modifies this`analyses, lru
      ensures Valid()
      ensures analyses == if key !in old(analyses) && onDisk.Some? then old(analyses)[key := onDisk.value] else old(analyses)
      ensures r == if key in analyses then payload(analyses[key].blob) else None
      ensures lru.order == if r.Some? then Used(old(lru.order), key, lru.max) else old(lru.order)
    {
      if key !in analyses {
        if onDisk.None? { return None; }
        analyses := analyses[key := onDisk.value];
      }
      r := payload(analyses[key].blob);
      if r.Some? { lru.Insert(key, AnalysisEntry); }
    }

    /** A build entry has no blob; here the use is recorded before the map is filled. */
    method BuildEntryFor(key: Key, onDisk: Option<BuildMeta>) returns (r: Option<BuildMeta>)
      requires Valid()
      modifies this`builds, lru
      ensures Valid()
      ensures builds == if key !in old(builds) && onDisk.Some? then old(builds)[key := onDisk.value] else old(builds)
      ensures r == if key in builds then Some(builds[key]) else None
      ensures lru.order == if r.Some? then Used(old(lru.order), key, lru.max) else old(lru.order)
    {
      if key !in builds {
        if onDisk.None? { return None; }
        lru.Insert(key, BuildEntry);
        builds := builds[key := onDisk.value];
      } else {
        lru.Insert(key, BuildEntry);
      }
      return Some(builds[key]);
    }

    method CachedMir<P>(key: Key, bodyHash: nat, onDisk: Option<MirMeta>, payload: BlobHash -> Option<P>)
      returns (r: Option<P>)
      requires Valid()
      modifies this`mirs, lru
      ensures Valid()
      ensures mirs == if key !in old(mirs) && onDisk.Some? && onDisk.value.bodyHash == bodyHash
                      then old(mirs)[key := onDisk.value] else old(mirs)
      ensures r == if key in mirs && mirs[key].bodyHash == bodyHash then payload(mirs[key].blob) else None
      ensures lru.order == if r.Some? then Used(old(lru.order), key, lru.max) else old(lru.order)
    {
      if key !in mirs {
        if onDisk.None? || onDisk.value.bodyHash != bodyHash { return None; }
        mirs := mirs[key := onDisk.value];
      }
      if mirs[key].bodyHash != bodyHash { return None; }
      r := payload(mirs[key].blob);
      if r.Some? { lru.Insert(key, MirEntry); }
    }

    ghost predicate WithinCapacity()
      reads this, lru
    {
      maxUnits.None? || Total(Maps()) <= maxUnits.value || lru.order == []
    }

    /** Takes the least recently used key off the list and out of the first map that has it. */
    method EvictOldest() returns (evicted: bool)
      requires Valid()
      modifies this`files, this`analyses, this`builds, this`mirs, this`evictions, lru
      ensures Valid() && evicted == (old(lru.order) != [])
      ensures evicted ==>
        lru.order == old(lru.order)[1..] && Maps() == RemoveFirst(old(Maps()), old(lru.order)[0]) &&
        Total(Maps()) == Total(old(Maps())) - 1 && evictions == old(evictions) + 1
      ensures !evicted ==> lru.order == [] && Maps() == old(Maps()) && evictions == old(evictions)
    {
      var oldest := lru.EvictOne();
      if oldest.None? { return false; }
      var key := oldest.value;
      DistinctTail(old(lru.order));
      assert key in Elements(old(lru.order)) && key !in Elements(lru.order);
      ghost var before := Maps();
      RemoveFirstShrinks(before, key);
      if key in files {
        files := files - {key};
      } else if key in analyses {
        analyses := analyses - {key};
      } else if key in builds {
        builds := builds - {key};
      } else if key in mirs {
        mirs := mirs - {key};
      }
      evictions := evictions + 1;
      assert Maps() == RemoveFirst(before, key);
      return true;
    }

    /** Evicts until the total fits or the list is empty. */
    method EnforceCapacity()
      requires Valid()
      modifies this`files, this`analyses, this`builds, this`mirs, this`evictions, lru
      ensures Valid() && WithinCapacity()
      ensures (Maps(), lru.order) == Trimmed(old(Maps()), old(lru.order), maxUnits)
      ensures evictions == old(evictions) + Surplus(Total(old(Maps())), |old(lru.order)|, maxUnits)
    {
      hide RemoveFirst, AllKeys, Elements, Distinct;
      if maxUnits.None? { return; }
      var max := maxUnits.value;
      var total := |files| + |analyses| + |builds| + |mirs|;
      ghost var tables, order, n := Maps(), lru.order, 0;
      while total > max
        invariant Valid() && total == Total(Maps()) == Total(tables) - n && n <= |order|
        invariant lru.order == order[n..] && Maps() == RemoveEach(tables, order[..n])
        invariant evictions == old(evictions) + n && (n > 0 ==> max <= total)
        decreases total
      {
        var evicted := EvictOldest();
        if !evicted { break; }
        RemoveEachStep(tables, order, n);
        n := n + 1;
        var newTotal := |files| + |analyses| + |builds| + |mirs|;
        if newTotal >= total {
          // A listed key is always a key of a map, so its eviction shrinks the total.
          assert false;
          break;
        }
        total := newTotal;
      }
    }
  }

  lemma DistinctTail(q: seq<Key>)
    requires Distinct(q) && q != []
    ensures Elements(q[1..]) == Elements(q) - {q[0]}
  {
    assert q == [q[0]] + q[1..];
    DistinctFront(q[0], q[1..]);
  }
}
