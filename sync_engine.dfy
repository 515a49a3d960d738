/**
 * saveGaiaIndexesToCache: one reconciliation of the local cache with the master index of
 * one scope (the principal's own files, or the files a user shares with the principal).
 *
 * The remote reads are oracles of `SyncEnv`; the cache is a `CacheDb`. The reconciliation
 * is specified by `Reconcile`, a fold `Fold` of `Step` over the master index in enumeration order
 * followed by the self-heal write and the prune; the method `SaveGaiaIndexesToCache`
 * performs it step by step and is proved to produce exactly that result.
 */
module SyncEngine {
  import opened Wrappers
  import opened JsValues
  import opened Dicts
  import opened Indexes
  import opened Addressing
  import opened CacheStore

  /**
   * What one reconciliation reads. `readMaster(file, userName)` is getMasterIndex (None when
   * the file is absent, unreadable or empty); `readKey(file, userName)` is getPrivateKey
   * (None when the read fails); `readIndex(file, key, userName)` is the getFile of an index
   * file followed by JSON.parse (None when either throws); `seal(json)` is encryptContent
   * (None when it throws); `masterWriteOk` says whether putFile of the master index succeeds.
   */
  datatype SyncEnv = SyncEnv(
    ownerPublicKey: string,
    addr: Hash,
    readMaster: (string, Option<string>) -> Option<MasterIndex>,
    readKey: (string, Option<string>) -> Option<string>,
    readIndex: (string, Option<string>, Option<string>) -> Option<MetaDoc>,
    seal: string -> Option<string>,
    masterWriteOk: bool)

  /** The cache id of a master-index key in this scope. */
  function IdOf(env: SyncEnv, userName: Option<string>, indexFile: string): Id
  {
    IndexId(env.addr, env.ownerPublicKey, indexFile, userName)
  }

  /** `existingCache[indexID]`: undefined (None) for an id the scan did not collect. */
  function Cached(existingCache: map<Id, Option<int>>, id: Id): Option<int>
  {
    if id in existingCache then existingCache[id] else None
  }

  /** The staleness test `!lastProcessed || (lastUpdated && lastUpdated > lastProcessed)`. */
  predicate NeedsFetch(lastUpdated: Option<int>, lastProcessed: Option<int>)
  {
    !TruthyNum(lastProcessed) || (TruthyNum(lastUpdated) && lastUpdated.value > lastProcessed.value)
  }

  /** The share root the scope reads from. */
  function Root(env: SyncEnv, userName: Option<string>): string
  {
    if TruthyStr(userName) then UserDirectory(env.addr, env.ownerPublicKey) else ""
  }

  /** What happens to one master-index key. */
  datatype Outcome = NotRequested | Failed | OldFormat | Stored(entry: CacheEntry)

  /** The fate of one key: not read, read and lost, read and skipped, or read and cached. */
  function Classify(env: SyncEnv, userName: Option<string>, existingCache: map<Id, Option<int>>,
                    indexFile: string, lastUpdated: Option<int>): Outcome
  {
    var lastProcessed := Cached(existingCache, IdOf(env, userName, indexFile));
    var fileId := FileIdFromIndexPath(indexFile);
    if !NeedsFetch(lastUpdated, lastProcessed) || fileId.None? || fileId.value == "" then NotRequested
    else
      var keyFile := WorkerPrivateKeyFileName(env.addr, env.ownerPublicKey, fileId.value,
                                              TypeFromIndexPath(indexFile), userName);
      var privateKey := env.readKey(keyFile, userName);
      match env.readIndex(indexFile, privateKey, userName)
      case None => Failed
      case Some(meta) =>
        if meta.hasMediaType then OldFormat
        else match env.seal(meta.json)
          case None => Failed
          case Some(blob) =>
            Stored(CacheEntry(Section(env.ownerPublicKey, meta.fileType), blob, meta.lastUpdatedUTC, userName))
  }

  /** The loop's variables: the cache, `existing`, `missing`, the files read, and `ret`. */
  datatype SyncState = SyncState(cache: map<Id, CacheEntry>, existing: set<Id>, missing: seq<string>,
                                 fetched: seq<string>, count: nat)

  /** One key of the master index: its path, its cache id and its fate. */
  datatype Visit = Visit(indexFile: string, id: Id, outcome: Outcome)

  /** The key at position `i` of the master index, with its id and fate. */
  function VisitAt(env: SyncEnv, userName: Option<string>, existingCache: map<Id, Option<int>>,
                   d: MasterIndex, i: nat): Visit
    requires i < |d.keys|
  {
    assert d.keys[i] in d.keys;
    var k := d.keys[i];
    Visit(k, IdOf(env, userName, k), Classify(env, userName, existingCache, k, d.vals[k]))
  }

  /** The keys the loop visits, the first `n` of the master index in enumeration order. */
  function Visits(env: SyncEnv, userName: Option<string>, existingCache: map<Id, Option<int>>,
                  d: MasterIndex, n: nat): seq<Visit>
    requires n <= |d.keys|
  {
    if n == 0 then [] else Visits(env, userName, existingCache, d, n - 1) + [VisitAt(env, userName, existingCache, d, n - 1)]
  }

  /** One iteration of the `for (indexFile in masterIndex)` loop. */
  function Step(st: SyncState, v: Visit): SyncState
  {
    var st1 := st.(existing := st.existing + {v.id});
    match v.outcome
    case NotRequested => st1
    case Failed => st1.(missing := st1.missing + [v.indexFile], fetched := st1.fetched + [v.indexFile])
    case OldFormat => st1.(fetched := st1.fetched + [v.indexFile])
    case Stored(e) => st1.(cache := st1.cache[v.id := e], fetched := st1.fetched + [v.indexFile],
                           count := st1.count + 1)
  }

  /** The loop's state after the visits `vs`, starting from the cache `cache0`. */
  function Fold(cache0: map<Id, CacheEntry>, vs: seq<Visit>): SyncState
  {
    if vs == [] then SyncState(cache0, {}, [], [], 0)
    else Step(Fold(cache0, vs[..|vs| - 1]), vs[|vs| - 1])
  }

  lemma FoldSnoc(cache0: map<Id, CacheEntry>, vs: seq<Visit>, v: Visit)
    ensures Fold(cache0, vs + [v]) == Step(Fold(cache0, vs), v)
  {
    assert (vs + [v])[..|vs|] == vs;
  }

  /** The state after one more key of the loop. */
  lemma FoldVisits(cache0: map<Id, CacheEntry>, env: SyncEnv, userName: Option<string>,
                   existingCache: map<Id, Option<int>>, d: MasterIndex, i: nat)
    requires i < |d.keys|
    ensures Fold(cache0, Visits(env, userName, existingCache, d, i + 1))
         == Step(Fold(cache0, Visits(env, userName, existingCache, d, i)), VisitAt(env, userName, existingCache, d, i))
  {
    FoldSnoc(cache0, Visits(env, userName, existingCache, d, i), VisitAt(env, userName, existingCache, d, i));
  }

  /** The cache ids the prune deletes: collected by the scan, produced by no key. */
  function Orphans(existingCache: map<Id, Option<int>>, existing: set<Id>): set<Id>
  {
    existingCache.Keys - existing
  }

  /** The master index with every missing path deleted. */
  function Healed(d: MasterIndex, missing: seq<string>): MasterIndex
  {
    RemoveAll(d, Members(missing))
  }

  /** The outcome of one call: the new cache, `[ret, hasExisting]`, and the master index written back. */
  datatype SyncResult = SyncResult(cache: map<Id, CacheEntry>, count: nat, hasExisting: bool,
                                   masterWrite: Option<MasterIndex>)

  /** The whole of saveGaiaIndexesToCache for one scope. */
  function Reconcile(env: SyncEnv, fileTypes: seq<string>, userName: Option<string>,
                     cache0: map<Id, CacheEntry>): SyncResult
  {
    match env.readMaster(MasterIndexFileName(Root(env, userName)), userName)
    case None => SyncResult(cache0, 0, false, None)
    case Some(d) =>
      var existingCache := ExistingCache(cache0, env.ownerPublicKey, fileTypes, userName);
      var hasExisting := existingCache.Keys != {};
      var st := Fold(cache0, Visits(env, userName, existingCache, d, |d.keys|));
      var heal := !TruthyStr(userName) && |st.missing| > 0;
      var write := if heal then Some(Healed(d, st.missing)) else None;
      if heal && !env.masterWriteOk then SyncResult(st.cache, st.count, hasExisting, write)
      else SyncResult(st.cache - Orphans(existingCache, st.existing), st.count, hasExisting, write)
  }

  /** The paths of `s`, as a set. */
  function Members(s: seq<string>): set<string>
  {
    set k | k in s
  }

  /** The `missing.forEach(x => delete masterIndex[x])` pass. */
  method DeleteMissing(d: MasterIndex, missing: seq<string>) returns (r: MasterIndex)
    ensures r == Healed(d, missing)
  {
    r := d;
    RemoveNothing(d);
    assert Members(missing[..0]) == {};
    var j := 0;
    while j < |missing|
      invariant 0 <= j <= |missing|
      invariant r == RemoveAll(d, Members(missing[..j]))
    {
      RemoveAllThenRemove(d, Members(missing[..j]), missing[j]);
      assert Members(missing[..j + 1]) == Members(missing[..j]) + {missing[j]} by {
        assert missing[..j + 1] == missing[..j] + [missing[j]];
      }
      r := Remove(r, missing[j]);
      j := j + 1;
    }
    assert missing[..j] == missing;
  }

  /** The `for (key in existingCache) if (!existing[key]) db.delete(key)` pass. */
  method PruneOrphans(db: CacheDb, existingCache: map<Id, Option<int>>, existing: set<Id>)
    modifies db
    ensures db.entries == old(db.entries) - Orphans(existingCache, existing)
  {
    var pending := existingCache.Keys;
    while pending != {}
      invariant pending <= existingCache.Keys
      invariant db.entries == old(db.entries) - ((existingCache.Keys - pending) - existing)
      decreases pending
    {
      var key :| key in pending;
      if key !in existing {
        db.Delete(key);
      }
      pending := pending - {key};
    }
  }

  /**
   * The body of the loop for one key up to the db.put: the staleness test, the key and
   * index reads, the old-format skip and the sealing of the JSON.
   */
  method FetchIndexFile(env: SyncEnv, userName: Option<string>, existingCache: map<Id, Option<int>>,
                        indexFile: string, lastUpdated: Option<int>) returns (outcome: Outcome)
    ensures outcome == Classify(env, userName, existingCache, indexFile, lastUpdated)
  {
    var lastProcessed := Cached(existingCache, IdOf(env, userName, indexFile));
    var fileId := FileIdFromIndexPath(indexFile);
    if !NeedsFetch(lastUpdated, lastProcessed) || fileId.None? || fileId.value == "" {
      return NotRequested;
    }
    var fileType := TypeFromIndexPath(indexFile);
    var privateKey := env.readKey(WorkerPrivateKeyFileName(env.addr, env.ownerPublicKey, fileId.value,
                                                           fileType, userName), userName);
    var metaData := env.readIndex(indexFile, privateKey, userName);
    if metaData.None? {
      return Failed;
    }
    if metaData.value.hasMediaType {
      return OldFormat;
    }
    var encrypted := env.seal(metaData.value.json);
    if encrypted.None? {
      return Failed;
    }
    outcome := Stored(CacheEntry(Section(env.ownerPublicKey, metaData.value.fileType), encrypted.value,
                                 metaData.value.lastUpdatedUTC, userName));
  }

  /** The rest of one iteration: mark the id, and record the failure or put the record. */
  method ApplyVisit(db: CacheDb, v: Visit, ghost st: SyncState, existing: set<Id>, missing: seq<string>, count: nat)
    returns (existing': set<Id>, missing': seq<string>, count': nat)
    requires db.entries == st.cache && existing == st.existing && missing == st.missing && count == st.count
    modifies db
    ensures var st' := Step(st, v);
      db.entries == st'.cache && existing' == st'.existing && missing' == st'.missing && count' == st'.count
  {
    existing', missing', count' := existing + {v.id}, missing, count;
    match v.outcome {
      case NotRequested =>
      case Failed =>
        missing' := missing + [v.indexFile];
      case OldFormat =>
      case Stored(e) =>
        db.Put(v.id, e);
        count' := count + 1;
    }
  }

  /** One iteration of the loop, for the key at position `i`. */
  method VisitKey(db: CacheDb, env: SyncEnv, userName: Option<string>, existingCache: map<Id, Option<int>>,
                  masterIndex: MasterIndex, i: nat, ghost st: SyncState,
                  existing: set<Id>, missing: seq<string>, count: nat)
    returns (existing': set<Id>, missing': seq<string>, count': nat)
    requires i < |masterIndex.keys|
    requires db.entries == st.cache && existing == st.existing && missing == st.missing && count == st.count
    modifies db
    ensures var st' := Step(st, VisitAt(env, userName, existingCache, masterIndex, i));
      db.entries == st'.cache && existing' == st'.existing && missing' == st'.missing && count' == st'.count
  {
    var indexFile := masterIndex.keys[i];
    assert indexFile in masterIndex.keys;
    var indexID := IdOf(env, userName, indexFile);
    var outcome := FetchIndexFile(env, userName, existingCache, indexFile, masterIndex.vals[indexFile]);
    existing', missing', count' := ApplyVisit(db, Visit(indexFile, indexID, outcome), st, existing, missing, count);
  }

  /** The `for (indexFile in masterIndex)` loop. */
  method ProcessMasterIndex(db: CacheDb, env: SyncEnv, userName: Option<string>,
                            existingCache: map<Id, Option<int>>, masterIndex: MasterIndex)
    returns (existing: set<Id>, missing: seq<string>, count: nat)
    modifies db
    ensures var st := Fold(old(db.entries), Visits(env, userName, existingCache, masterIndex, |masterIndex.keys|));
      db.entries == st.cache && existing == st.existing && missing == st.missing && count == st.count
  {
    existing, missing, count := {}, [], 0;
    ghost var cache0 := db.entries;
    ghost var st := Fold(cache0, []);
    var i := 0;
    while i < |masterIndex.keys|
      invariant 0 <= i <= |masterIndex.keys|
      invariant st == Fold(cache0, Visits(env, userName, existingCache, masterIndex, i))
      invariant db.entries == st.cache && existing == st.existing && missing == st.missing && count == st.count
    {
      existing, missing, count := VisitKey(db, env, userName, existingCache, masterIndex, i, st, existing, missing, count);
      FoldVisits(cache0, env, userName, existingCache, masterIndex, i);
      st := Step(st, VisitAt(env, userName, existingCache, masterIndex, i));
      i := i + 1;
    }
  }

  /**
   * saveGaiaIndexesToCache(userName): reconciles the cache in `db` with the master index of
   * the scope and returns `[ret, hasExisting]` and the master index written back, if any.
   */
  method SaveGaiaIndexesToCache(db: CacheDb, env: SyncEnv, fileTypes: seq<string>, userName: Option<string>)
    returns (count: nat, hasExisting: bool, masterWrite: Option<MasterIndex>)
    modifies db
    ensures SyncResult(db.entries, count, hasExisting, masterWrite) == Reconcile(env, fileTypes, userName, old(db.entries))
  {
    count, hasExisting, masterWrite := 0, false, None;
    var loaded := env.readMaster(MasterIndexFileName(Root(env, userName)), userName);
    if loaded.None? {
      return;
    }
    var existingCache;
    existingCache, hasExisting := CollectScoped(db.entries, env.ownerPublicKey, fileTypes, userName);
    var existing, missing;
    existing, missing, count := ProcessMasterIndex(db, env, userName, existingCache, loaded.value);
    if !TruthyStr(userName) && |missing| > 0 {
      var healed := DeleteMissing(loaded.value, missing);
      masterWrite := Some(healed);
      if !env.masterWriteOk {
        return;
      }
    }
    PruneOrphans(db, existingCache, existing);
  }
}
