/**
 * What one reconciliation does, stated key by key over the master index: which keys are
 * read, which end up in `missing`, what the cache holds afterwards, what is deleted, what
 * is written back, and that a second run over an unchanged master index stores nothing.
 */
module SyncProperties {
  import opened Wrappers
  import opened JsValues
  import opened Dicts
  import opened Indexes
  import opened Addressing
  import opened CacheStore
  import opened SyncEngine

  /** The private-key read for an index file whose id parses. */
  function KeyRead(env: SyncEnv, userName: Option<string>, indexFile: string, fileId: string): Option<string>
  {
    env.readKey(WorkerPrivateKeyFileName(env.addr, env.ownerPublicKey, fileId, TypeFromIndexPath(indexFile),
                                         userName), userName)
  }

  // ---- one key ----

  /**
   * A key is read exactly when its cached time is falsy, or its master-index time is truthy
   * and later, and its path names a non-empty file id.
   */
  lemma ClassifyRequested(env: SyncEnv, userName: Option<string>, existingCache: map<Id, Option<int>>,
                          indexFile: string, lastUpdated: Option<int>)
    ensures var lp := Cached(existingCache, IdOf(env, userName, indexFile));
      var fileId := FileIdFromIndexPath(indexFile);
      !Classify(env, userName, existingCache, indexFile, lastUpdated).NotRequested? <==>
        (lp.None? || lp.value == 0 ||
         (lastUpdated.Some? && lastUpdated.value != 0 && lastUpdated.value > lp.value)) &&
        fileId.Some? && fileId.value != ""
  {
  }

  /**
   * A key read is stored exactly when its metadata parses, has no `mediaType`, and seals;
   * the record then has the scope's section, the metadata's time and the scope's user name.
   */
  lemma ClassifyStored(env: SyncEnv, userName: Option<string>, existingCache: map<Id, Option<int>>,
                       indexFile: string, lastUpdated: Option<int>)
    requires !Classify(env, userName, existingCache, indexFile, lastUpdated).NotRequested?
    ensures FileIdFromIndexPath(indexFile).Some?
    ensures var meta := env.readIndex(indexFile, KeyRead(env, userName, indexFile, FileIdFromIndexPath(indexFile).value),
                                      userName);
      var o := Classify(env, userName, existingCache, indexFile, lastUpdated);
      (o.Stored? <==> meta.Some? && !meta.value.hasMediaType && env.seal(meta.value.json).Some?) &&
      (o.OldFormat? <==> meta.Some? && meta.value.hasMediaType) &&
      (o.Failed? <==> meta.None? || (!meta.value.hasMediaType && env.seal(meta.value.json).None?)) &&
      (o.Stored? ==> o.entry == CacheEntry(Section(env.ownerPublicKey, meta.value.fileType),
                                           env.seal(meta.value.json).value, meta.value.lastUpdatedUTC, userName))
  {
    var fileId := FileIdFromIndexPath(indexFile);
    assert fileId.Some?;
    var key := KeyRead(env, userName, indexFile, fileId.value);
    assert key == env.readKey(WorkerPrivateKeyFileName(env.addr, env.ownerPublicKey, fileId.value,
                                                       TypeFromIndexPath(indexFile), userName), userName);
  }

  /** A null master-index time causes a read only when the cache has no truthy time for the key. */
  lemma NullTimeFetchesOnlyUncached(env: SyncEnv, userName: Option<string>, existingCache: map<Id, Option<int>>,
                                    indexFile: string)
    ensures !Classify(env, userName, existingCache, indexFile, None).NotRequested? ==>
      !TruthyNum(Cached(existingCache, IdOf(env, userName, indexFile)))
  {
  }

  // ---- the fold, over any sequence of visits ----

  /** The positions of `vs` whose key is stored. */
  function StoredPositions(vs: seq<Visit>): set<nat>
  {
    set i: nat | i < |vs| && vs[i].outcome.Stored?
  }

  /** Every visited key marks its id in `existing`, whatever its fate. */
  lemma {:induction false} FoldExisting(cache0: map<Id, CacheEntry>, vs: seq<Visit>)
    ensures Fold(cache0, vs).existing == set v | v in vs :: v.id
  {
    if vs != [] {
      var init := vs[..|vs| - 1];
      FoldExisting(cache0, init);
      assert vs == init + [vs[|vs| - 1]];
    }
  }

  /** The files read are the visited keys not skipped by the staleness test. */
  lemma {:induction false} FoldFetched(cache0: map<Id, CacheEntry>, vs: seq<Visit>)
    ensures forall k :: k in Fold(cache0, vs).fetched <==>
      exists v :: v in vs && v.indexFile == k && !v.outcome.NotRequested?
  {
    if vs != [] {
      var init := vs[..|vs| - 1];
      FoldFetched(cache0, init);
      assert vs == init + [vs[|vs| - 1]];
    }
  }

  /** `missing` holds exactly the visited keys whose read or sealing failed. */
  lemma {:induction false} FoldMissing(cache0: map<Id, CacheEntry>, vs: seq<Visit>)
    ensures forall k :: k in Fold(cache0, vs).missing <==>
      exists v :: v in vs && v.indexFile == k && v.outcome.Failed?
  {
    if vs != [] {
      var init := vs[..|vs| - 1];
      FoldMissing(cache0, init);
      assert vs == init + [vs[|vs| - 1]];
    }
  }

  /** `ret` counts the stores. */
  lemma {:induction false} FoldCount(cache0: map<Id, CacheEntry>, vs: seq<Visit>)
    ensures Fold(cache0, vs).count == |StoredPositions(vs)|
  {
    if vs == [] {
      assert StoredPositions(vs) == {};
    } else {
      var init := vs[..|vs| - 1];
      FoldCount(cache0, init);
      StoredPositionsSnoc(vs);
      assert Fold(cache0, vs).count == Fold(cache0, init).count + if vs[|vs| - 1].outcome.Stored? then 1 else 0;
    }
  }

  lemma StoredPositionsSnoc(vs: seq<Visit>)
    requires vs != []
    ensures |StoredPositions(vs)| == |StoredPositions(vs[..|vs| - 1])| + if vs[|vs| - 1].outcome.Stored? then 1 else 0
  {
    var init := vs[..|vs| - 1];
    var n := |vs| - 1;
    assert forall i :: 0 <= i < n ==> init[i] == vs[i];
    assert n !in StoredPositions(init);
    if vs[n].outcome.Stored? {
      assert StoredPositions(vs) == StoredPositions(init) + {n};
    } else {
      assert StoredPositions(vs) == StoredPositions(init);
    }
  }

  /** A cache id that no stored key produces keeps its record, or its absence. */
  lemma {:induction false} FoldUntouched(cache0: map<Id, CacheEntry>, vs: seq<Visit>, id: Id)
    requires forall v :: v in vs && v.outcome.Stored? ==> v.id != id
    ensures var c := Fold(cache0, vs).cache;
      (id in c <==> id in cache0) && (id in cache0 ==> c[id] == cache0[id])
  {
    if vs != [] {
      var init := vs[..|vs| - 1];
      assert forall v :: v in init ==> v in vs;
      FoldUntouched(cache0, init, id);
      assert vs[|vs| - 1] in vs;
    }
  }

  /** The record of a stored key is that key's record unless a later key with the same id is stored. */
  lemma {:induction false} FoldStored(cache0: map<Id, CacheEntry>, vs: seq<Visit>, i: nat)
    requires i < |vs| && vs[i].outcome.Stored?
    requires forall j :: i < j < |vs| && vs[j].outcome.Stored? ==> vs[j].id != vs[i].id
    ensures var c := Fold(cache0, vs).cache;
      vs[i].id in c && c[vs[i].id] == vs[i].outcome.entry
  {
    var init := vs[..|vs| - 1];
    if i < |vs| - 1 {
      FoldStored(cache0, init, i);
    }
  }

  /** A record produced by the loop comes from a stored key with that id. */
  lemma {:induction false} FoldNewFromStored(cache0: map<Id, CacheEntry>, vs: seq<Visit>, id: Id)
    requires id in Fold(cache0, vs).cache && (id !in cache0 || Fold(cache0, vs).cache[id] != cache0[id])
    ensures exists v :: v in vs && v.outcome.Stored? && v.id == id
  {
    if forall v :: v in vs && v.outcome.Stored? ==> v.id != id {
      FoldUntouched(cache0, vs, id);
    }
  }

  /** The loop only puts: no record present before it disappears. */
  lemma {:induction false} FoldKeepsKeys(cache0: map<Id, CacheEntry>, vs: seq<Visit>)
    ensures cache0.Keys <= Fold(cache0, vs).cache.Keys
  {
    if vs != [] {
      FoldKeepsKeys(cache0, vs[..|vs| - 1]);
    }
  }

  // ---- the visits of a master index ----

  /** The loop visits the keys of the master index in their enumeration order. */
  lemma {:induction false} VisitsAt(env: SyncEnv, userName: Option<string>, existingCache: map<Id, Option<int>>,
                                    d: MasterIndex, n: nat)
    requires n <= |d.keys|
    ensures |Visits(env, userName, existingCache, d, n)| == n
    ensures forall i :: 0 <= i < n ==>
      Visits(env, userName, existingCache, d, n)[i] == VisitAt(env, userName, existingCache, d, i)
  {
    if n > 0 {
      var prev := Visits(env, userName, existingCache, d, n - 1);
      VisitsAt(env, userName, existingCache, d, n - 1);
      assert Visits(env, userName, existingCache, d, n) == prev + [VisitAt(env, userName, existingCache, d, n - 1)];
      forall i | 0 <= i < n
        ensures Visits(env, userName, existingCache, d, n)[i] == VisitAt(env, userName, existingCache, d, i)
      {
        if i < n - 1 {
          assert Visits(env, userName, existingCache, d, n)[i] == prev[i];
        }
      }
    }
  }

  // ---- the whole reconciliation ----

  /** The master index the scope reads. */
  function Loaded(env: SyncEnv, userName: Option<string>): Option<MasterIndex>
  {
    env.readMaster(MasterIndexFileName(Root(env, userName)), userName)
  }

  /** The timestamps the scan collects from the cache. */
  function Scan(env: SyncEnv, fileTypes: seq<string>, userName: Option<string>,
                cache0: map<Id, CacheEntry>): map<Id, Option<int>>
  {
    ExistingCache(cache0, env.ownerPublicKey, fileTypes, userName)
  }

  /** The keys the loop visits in this reconciliation, with their ids and fates. */
  function Plan(env: SyncEnv, fileTypes: seq<string>, userName: Option<string>, cache0: map<Id, CacheEntry>,
                d: MasterIndex): seq<Visit>
  {
    Visits(env, userName, Scan(env, fileTypes, userName, cache0), d, |d.keys|)
  }

  /** Some visited key fails to load. */
  predicate SomeFailure(plan: seq<Visit>)
  {
    exists v :: v in plan && v.outcome.Failed?
  }

  /** The visited keys that fail to load. */
  function FailedFiles(plan: seq<Visit>): set<string>
  {
    set v | v in plan && v.outcome.Failed? :: v.indexFile
  }

  /** The prune runs unless the self-heal write was attempted and failed. */
  predicate PruneRuns(env: SyncEnv, userName: Option<string>, plan: seq<Visit>)
  {
    TruthyStr(userName) || !SomeFailure(plan) || env.masterWriteOk
  }

  /** The plan visits every key of the master index once, in enumeration order. */
  lemma PlanFacts(env: SyncEnv, fileTypes: seq<string>, userName: Option<string>, cache0: map<Id, CacheEntry>,
                  d: MasterIndex)
    ensures var vs := Plan(env, fileTypes, userName, cache0, d);
      |vs| == |d.keys| &&
      forall i :: 0 <= i < |d.keys| ==>
        vs[i] == VisitAt(env, userName, Scan(env, fileTypes, userName, cache0), d, i) &&
        vs[i].indexFile == d.keys[i] && vs[i].id == IdOf(env, userName, d.keys[i])
  {
    VisitsAt(env, userName, Scan(env, fileTypes, userName, cache0), d, |d.keys|);
  }

  /** `hasExisting` is true exactly when the index loads and the scan admits some record. */
  lemma ReconcileHasExisting(env: SyncEnv, fileTypes: seq<string>, userName: Option<string>,
                             cache0: map<Id, CacheEntry>)
    ensures Reconcile(env, fileTypes, userName, cache0).hasExisting <==>
      Loaded(env, userName).Some? &&
      exists id :: id in cache0 && InScope(cache0[id], env.ownerPublicKey, fileTypes, userName)
  {
    var ec := Scan(env, fileTypes, userName, cache0);
    if exists id :: id in cache0 && InScope(cache0[id], env.ownerPublicKey, fileTypes, userName) {
      var id :| id in cache0 && InScope(cache0[id], env.ownerPublicKey, fileTypes, userName);
      assert id in ec.Keys;
    }
  }

  /** Without a master index nothing changes and nothing is reported. */
  lemma ReconcileWithoutIndex(env: SyncEnv, fileTypes: seq<string>, userName: Option<string>,
                              cache0: map<Id, CacheEntry>)
    requires Loaded(env, userName).None?
    ensures Reconcile(env, fileTypes, userName, cache0) == SyncResult(cache0, 0, false, None)
  {
  }

  /** `ret` is the number of visited keys whose record was put. */
  lemma ReconcileCount(env: SyncEnv, fileTypes: seq<string>, userName: Option<string>,
                       cache0: map<Id, CacheEntry>, d: MasterIndex)
    requires Loaded(env, userName) == Some(d)
    ensures Reconcile(env, fileTypes, userName, cache0).count
         == |StoredPositions(Plan(env, fileTypes, userName, cache0, d))|
  {
    FoldCount(cache0, Plan(env, fileTypes, userName, cache0, d));
  }

  lemma MissingIsFailedFiles(cache0: map<Id, CacheEntry>, vs: seq<Visit>)
    ensures Members(Fold(cache0, vs).missing) == FailedFiles(vs)
    ensures |Fold(cache0, vs).missing| > 0 <==> SomeFailure(vs)
  {
    FoldMissing(cache0, vs);
    var missing := Fold(cache0, vs).missing;
    if SomeFailure(vs) {
      var v :| v in vs && v.outcome.Failed?;
      assert v.indexFile in missing;
    }
    if |missing| > 0 {
      assert missing[0] in missing;
    }
  }

  /** The cache after the run: the loop's cache, pruned unless the self-heal write failed. */
  lemma ReconcileCache(env: SyncEnv, fileTypes: seq<string>, userName: Option<string>,
                       cache0: map<Id, CacheEntry>, d: MasterIndex)
    requires Loaded(env, userName) == Some(d)
    ensures var plan := Plan(env, fileTypes, userName, cache0, d);
      var st := Fold(cache0, plan);
      Reconcile(env, fileTypes, userName, cache0).cache
        == if PruneRuns(env, userName, plan) then st.cache - Orphans(Scan(env, fileTypes, userName, cache0), st.existing)
           else st.cache
  {
    MissingIsFailedFiles(cache0, Plan(env, fileTypes, userName, cache0, d));
  }

  /**
   * The master index is written back exactly in the principal's own scope when some key
   * failed, and then it is the loaded index with exactly the failed keys deleted.
   */
  lemma ReconcileMasterWrite(env: SyncEnv, fileTypes: seq<string>, userName: Option<string>,
                             cache0: map<Id, CacheEntry>, d: MasterIndex)
    requires Loaded(env, userName) == Some(d)
    ensures var w := Reconcile(env, fileTypes, userName, cache0).masterWrite;
      var plan := Plan(env, fileTypes, userName, cache0, d);
      (w.Some? <==> !TruthyStr(userName) && SomeFailure(plan)) &&
      (w.Some? ==> w.value.vals == d.vals - FailedFiles(plan) &&
                   forall k :: k in w.value.keys <==> k in d.keys && k !in FailedFiles(plan))
  {
    MissingIsFailedFiles(cache0, Plan(env, fileTypes, userName, cache0, d));
  }

  /**
   * A cached record disappears exactly when the prune runs, the scan admitted it, and no
   * key of the master index (stored, skipped or failed) produces its id.
   */
  lemma ReconcileDeletes(env: SyncEnv, fileTypes: seq<string>, userName: Option<string>,
                         cache0: map<Id, CacheEntry>, d: MasterIndex, id: Id)
    requires Loaded(env, userName) == Some(d)
    requires id in cache0
    ensures id !in Reconcile(env, fileTypes, userName, cache0).cache <==>
      PruneRuns(env, userName, Plan(env, fileTypes, userName, cache0, d)) &&
      InScope(cache0[id], env.ownerPublicKey, fileTypes, userName) &&
      forall i :: 0 <= i < |d.keys| ==> IdOf(env, userName, d.keys[i]) != id
  {
    var vs := Plan(env, fileTypes, userName, cache0, d);
    PlanFacts(env, fileTypes, userName, cache0, d);
    MissingIsFailedFiles(cache0, vs);
    FoldKeepsKeys(cache0, vs);
    FoldExisting(cache0, vs);
    var existing := Fold(cache0, vs).existing;
    if forall i :: 0 <= i < |d.keys| ==> IdOf(env, userName, d.keys[i]) != id {
      assert id !in existing;
    } else {
      var i :| 0 <= i < |d.keys| && IdOf(env, userName, d.keys[i]) == id;
      assert vs[i] in vs;
      assert id in existing;
    }
  }

  /** A record no stored key produces is, when still there, exactly the record it was. */
  lemma ReconcileUntouched(env: SyncEnv, fileTypes: seq<string>, userName: Option<string>,
                           cache0: map<Id, CacheEntry>, d: MasterIndex, id: Id)
    requires Loaded(env, userName) == Some(d)
    requires forall v :: v in Plan(env, fileTypes, userName, cache0, d) && v.outcome.Stored? ==> v.id != id
    ensures var c := Reconcile(env, fileTypes, userName, cache0).cache;
      id in c ==> id in cache0 && c[id] == cache0[id]
  {
    FoldUntouched(cache0, Plan(env, fileTypes, userName, cache0, d), id);
  }

  /**
   * A stored key's record is in the cache afterwards, with the id createIndexID gives the
   * key, unless a later key with the same id is stored over it.
   */
  lemma ReconcileStored(env: SyncEnv, fileTypes: seq<string>, userName: Option<string>,
                        cache0: map<Id, CacheEntry>, d: MasterIndex, i: nat)
    requires Loaded(env, userName) == Some(d)
    requires var vs := Plan(env, fileTypes, userName, cache0, d);
      i < |vs| && vs[i].outcome.Stored? &&
      forall j :: i < j < |vs| && vs[j].outcome.Stored? ==> vs[j].id != vs[i].id
    ensures var vs := Plan(env, fileTypes, userName, cache0, d);
      var c := Reconcile(env, fileTypes, userName, cache0).cache;
      i < |d.keys| && IdOf(env, userName, d.keys[i]) in c && c[IdOf(env, userName, d.keys[i])] == vs[i].outcome.entry
  {
    var vs := Plan(env, fileTypes, userName, cache0, d);
    PlanFacts(env, fileTypes, userName, cache0, d);
    FoldStored(cache0, vs, i);
    FoldExisting(cache0, vs);
    assert vs[i] in vs;
  }
}
