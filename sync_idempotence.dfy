/**
 * A second reconciliation over an unchanged master index stores nothing and leaves the
 * cache as the first one left it, provided the keys of the index have distinct cache ids
 * and the index files agree with the master index (their type is one of the scanned
 * resource types and their own time is truthy and not older than the master index's).
 * The run after a self-heal reads the healed index instead: it stores nothing either, and
 * its prune deletes the records of the keys that failed. An index file that disagrees with
 * the master index is read and put again by every rerun.
 */
module SyncIdempotence {
  import opened Wrappers
  import opened JsValues
  import opened Dicts
  import opened Indexes
  import opened Addressing
  import opened CacheStore
  import opened SyncEngine
  import opened SyncProperties

  /** The keys of the master index have pairwise distinct cache ids in this scope. */
  predicate DistinctIds(env: SyncEnv, userName: Option<string>, d: MasterIndex)
  {
    forall i, j :: 0 <= i < j < |d.keys| ==> IdOf(env, userName, d.keys[i]) != IdOf(env, userName, d.keys[j])
  }

  /**
   * With an injective publicKeyToAddress, distinct master-index keys have distinct ids when
   * neither the owner's public key nor any key contains '_'.
   */
  lemma DistinctIdsFromInjectiveAddress(env: SyncEnv, userName: Option<string>, d: MasterIndex)
    requires forall a, b :: env.addr(a) == env.addr(b) ==> a == b
    requires '_' !in env.ownerPublicKey && forall k :: k in d.keys ==> '_' !in k
    ensures DistinctIds(env, userName, d)
  {
    forall i, j | 0 <= i < j < |d.keys|
      ensures IdOf(env, userName, d.keys[i]) != IdOf(env, userName, d.keys[j])
    {
      assert d.keys[i] in d.keys && d.keys[j] in d.keys;
      if IdOf(env, userName, d.keys[i]) == IdOf(env, userName, d.keys[j]) {
        PreimageInjective(env.ownerPublicKey, d.keys[i], userName, env.ownerPublicKey, d.keys[j], userName);
        assert false;
      }
    }
  }

  /**
   * The index file behind key `k` agrees with the master index: when it loads, its type is
   * scanned, and its time is truthy and at least the master index's (truthy) time.
   */
  predicate AgreesWithIndex(env: SyncEnv, fileTypes: seq<string>, userName: Option<string>, d: MasterIndex, k: string)
    requires k in d.vals
  {
    var fileId := FileIdFromIndexPath(k);
    fileId.Some? ==>
      var meta := env.readIndex(k, KeyRead(env, userName, k, fileId.value), userName);
      meta.Some? ==>
        meta.value.fileType in fileTypes && TruthyNum(meta.value.lastUpdatedUTC) &&
        (TruthyNum(d.vals[k]) ==> d.vals[k].value <= meta.value.lastUpdatedUTC.value)
  }

  predicate IndexFilesAgree(env: SyncEnv, fileTypes: seq<string>, userName: Option<string>, d: MasterIndex)
  {
    forall k :: k in d.vals ==> AgreesWithIndex(env, fileTypes, userName, d, k)
  }

  /** The decision for a key depends on the cache only through the key's collected time. */
  lemma ClassifyFollowsCache(env: SyncEnv, userName: Option<string>, ec1: map<Id, Option<int>>,
                             ec2: map<Id, Option<int>>, indexFile: string, lastUpdated: Option<int>)
    requires Cached(ec1, IdOf(env, userName, indexFile)) == Cached(ec2, IdOf(env, userName, indexFile))
    ensures Classify(env, userName, ec1, indexFile, lastUpdated) == Classify(env, userName, ec2, indexFile, lastUpdated)
  {
  }

  /** A key whose collected time is truthy and not older than the master index's is not read. */
  lemma {:induction false} ClassifyFresh(env: SyncEnv, userName: Option<string>, ec: map<Id, Option<int>>,
                                         indexFile: string, lastUpdated: Option<int>)
    requires var lp := Cached(ec, IdOf(env, userName, indexFile));
      TruthyNum(lp) && (TruthyNum(lastUpdated) ==> lastUpdated.value <= lp.value)
    ensures Classify(env, userName, ec, indexFile, lastUpdated).NotRequested?
  {
    assert !NeedsFetch(lastUpdated, Cached(ec, IdOf(env, userName, indexFile)));
  }

  /** The scan sees the same time for an id whose record is the same in two caches. */
  lemma ScanAgrees(env: SyncEnv, fileTypes: seq<string>, userName: Option<string>,
                   ca: map<Id, CacheEntry>, cb: map<Id, CacheEntry>, id: Id)
    requires (id in ca <==> id in cb) && (id in ca ==> ca[id] == cb[id])
    ensures Cached(Scan(env, fileTypes, userName, ca), id) == Cached(Scan(env, fileTypes, userName, cb), id)
  {
  }

  /** A record the reconciliation of a scope stores is admitted by the next scan of that scope. */
  lemma {:induction false} StoredIsInScope(env: SyncEnv, fileTypes: seq<string>, userName: Option<string>,
                                           d: MasterIndex, ec: map<Id, Option<int>>, k: string)
    requires k in d.vals && AgreesWithIndex(env, fileTypes, userName, d, k)
    requires Classify(env, userName, ec, k, d.vals[k]).Stored?
    ensures var e := Classify(env, userName, ec, k, d.vals[k]).entry;
      InScope(e, env.ownerPublicKey, fileTypes, userName) && TruthyNum(e.lastUpdated) &&
      (TruthyNum(d.vals[k]) ==> d.vals[k].value <= e.lastUpdated.value)
  {
    ClassifyStored(env, userName, ec, k, d.vals[k]);
    var e := Classify(env, userName, ec, k, d.vals[k]).entry;
    var meta := env.readIndex(k, KeyRead(env, userName, k, FileIdFromIndexPath(k).value), userName).value;
    assert e.section == Section(env.ownerPublicKey, meta.fileType);
    assert e.section in Sections(env.ownerPublicKey, fileTypes);
    assert AdmitsShare(userName, e.shareName);
  }

  /**
   * What the first run leaves, in `c1`, for the id of key `i`: the stored record, or the
   * record (or absence) it found.
   */
  predicate LeftFor(env: SyncEnv, userName: Option<string>, d: MasterIndex, plan1: seq<Visit>,
                    cache0: map<Id, CacheEntry>, c1: map<Id, CacheEntry>, i: nat)
    requires i < |d.keys| && i < |plan1|
  {
    var id := IdOf(env, userName, d.keys[i]);
    (plan1[i].outcome.Stored? ==> id in c1 && c1[id] == plan1[i].outcome.entry) &&
    (!plan1[i].outcome.Stored? ==> (id in c1 <==> id in cache0) && (id in cache0 ==> c1[id] == cache0[id]))
  }

  lemma KeyIdAfterFirstRun(env: SyncEnv, fileTypes: seq<string>, userName: Option<string>,
                           cache0: map<Id, CacheEntry>, d: MasterIndex, i: nat)
    requires Loaded(env, userName) == Some(d) && DistinctIds(env, userName, d)
    requires i < |d.keys|
    ensures |Plan(env, fileTypes, userName, cache0, d)| == |d.keys|
    ensures LeftFor(env, userName, d, Plan(env, fileTypes, userName, cache0, d), cache0,
                    Reconcile(env, fileTypes, userName, cache0).cache, i)
  {
    var plan := Plan(env, fileTypes, userName, cache0, d);
    var id := IdOf(env, userName, d.keys[i]);
    PlanFacts(env, fileTypes, userName, cache0, d);
    if plan[i].outcome.Stored? {
      ReconcileStored(env, fileTypes, userName, cache0, d, i);
    } else {
      forall v | v in plan && v.outcome.Stored? ensures v.id != id {
        var j :| 0 <= j < |plan| && plan[j] == v;
        assert j != i;
      }
      ReconcileUntouched(env, fileTypes, userName, cache0, d, id);
      if id in cache0 {
        ReconcileDeletes(env, fileTypes, userName, cache0, d, id);
      }
    }
  }

  /** In the second run key `i` is not stored, and fails again if it failed in the first. */
  lemma SecondVisit(env: SyncEnv, fileTypes: seq<string>, userName: Option<string>,
                    cache0: map<Id, CacheEntry>, c1: map<Id, CacheEntry>, d: MasterIndex, i: nat)
    requires IndexFilesAgree(env, fileTypes, userName, d)
    requires i < |d.keys| && |Plan(env, fileTypes, userName, cache0, d)| == |d.keys|
    requires LeftFor(env, userName, d, Plan(env, fileTypes, userName, cache0, d), cache0, c1, i)
    ensures var plan1 := Plan(env, fileTypes, userName, cache0, d);
      var plan2 := Plan(env, fileTypes, userName, c1, d);
      |plan2| == |d.keys| && !plan2[i].outcome.Stored? && (plan1[i].outcome.Failed? ==> plan2[i].outcome.Failed?) &&
      (plan1[i].outcome.Stored? ==> plan2[i].outcome.NotRequested?) &&
      (!plan1[i].outcome.Stored? ==> plan2[i].outcome == plan1[i].outcome)
  {
    var plan1 := Plan(env, fileTypes, userName, cache0, d);
    var plan2 := Plan(env, fileTypes, userName, c1, d);
    var ec1 := Scan(env, fileTypes, userName, cache0);
    var ec2 := Scan(env, fileTypes, userName, c1);
    PlanFacts(env, fileTypes, userName, cache0, d);
    PlanFacts(env, fileTypes, userName, c1, d);
    var k := d.keys[i];
    assert k in d.keys;
    var id := IdOf(env, userName, k);
    if plan1[i].outcome.Stored? {
      StoredIsInScope(env, fileTypes, userName, d, ec1, k);
      assert id in ec2 && ec2[id] == plan1[i].outcome.entry.lastUpdated;
      ClassifyFresh(env, userName, ec2, k, d.vals[k]);
    } else {
      ScanAgrees(env, fileTypes, userName, cache0, c1, id);
      ClassifyFollowsCache(env, userName, ec1, ec2, k, d.vals[k]);
    }
  }

  /** A loop that stores nothing leaves the cache as it is. */
  lemma FoldWithoutStores(cache0: map<Id, CacheEntry>, vs: seq<Visit>)
    requires StoredPositions(vs) == {}
    ensures Fold(cache0, vs).cache == cache0
  {
    forall v | v in vs ensures !v.outcome.Stored? {
      var j :| 0 <= j < |vs| && vs[j] == v;
      assert j !in StoredPositions(vs);
    }
    forall id | true
      ensures (id in Fold(cache0, vs).cache <==> id in cache0) && (id in cache0 ==> Fold(cache0, vs).cache[id] == cache0[id])
    {
      FoldUntouched(cache0, vs, id);
    }
  }

  /** What the first run leaves for the id of every key. */
  predicate FirstRunLeaves(env: SyncEnv, fileTypes: seq<string>, userName: Option<string>,
                           cache0: map<Id, CacheEntry>, c1: map<Id, CacheEntry>, d: MasterIndex)
  {
    |Plan(env, fileTypes, userName, cache0, d)| == |d.keys| &&
    forall i :: 0 <= i < |d.keys| ==> LeftFor(env, userName, d, Plan(env, fileTypes, userName, cache0, d), cache0, c1, i)
  }

  lemma FirstRun(env: SyncEnv, fileTypes: seq<string>, userName: Option<string>,
                 cache0: map<Id, CacheEntry>, d: MasterIndex)
    requires Loaded(env, userName) == Some(d) && DistinctIds(env, userName, d)
    ensures FirstRunLeaves(env, fileTypes, userName, cache0, Reconcile(env, fileTypes, userName, cache0).cache, d)
  {
    PlanFacts(env, fileTypes, userName, cache0, d);
    forall i | 0 <= i < |d.keys|
      ensures LeftFor(env, userName, d, Plan(env, fileTypes, userName, cache0, d), cache0,
                      Reconcile(env, fileTypes, userName, cache0).cache, i)
    {
      KeyIdAfterFirstRun(env, fileTypes, userName, cache0, d, i);
    }
  }

  /** The second run stores no key. */
  lemma SecondPlanStoresNothing(env: SyncEnv, fileTypes: seq<string>, userName: Option<string>,
                                cache0: map<Id, CacheEntry>, c1: map<Id, CacheEntry>, d: MasterIndex)
    requires IndexFilesAgree(env, fileTypes, userName, d)
    requires FirstRunLeaves(env, fileTypes, userName, cache0, c1, d)
    ensures StoredPositions(Plan(env, fileTypes, userName, c1, d)) == {}
  {
    PlanFacts(env, fileTypes, userName, c1, d);
    forall i | i in StoredPositions(Plan(env, fileTypes, userName, c1, d)) ensures false {
      SecondVisit(env, fileTypes, userName, cache0, c1, d, i);
    }
  }

  /** A failure of the first run recurs in the second. */
  lemma SecondPlanFailsAgain(env: SyncEnv, fileTypes: seq<string>, userName: Option<string>,
                             cache0: map<Id, CacheEntry>, c1: map<Id, CacheEntry>, d: MasterIndex)
    requires IndexFilesAgree(env, fileTypes, userName, d)
    requires FirstRunLeaves(env, fileTypes, userName, cache0, c1, d)
    requires SomeFailure(Plan(env, fileTypes, userName, cache0, d))
    ensures SomeFailure(Plan(env, fileTypes, userName, c1, d))
  {
    var plan1 := Plan(env, fileTypes, userName, cache0, d);
    var plan2 := Plan(env, fileTypes, userName, c1, d);
    var v :| v in plan1 && v.outcome.Failed?;
    var j :| 0 <= j < |plan1| && plan1[j] == v;
    SecondVisit(env, fileTypes, userName, cache0, c1, d, j);
    assert plan2[j] in plan2;
  }

  /** After a first run whose prune ran, every record the scan admits belongs to some key. */
  lemma NoOrphansLeft(env: SyncEnv, fileTypes: seq<string>, userName: Option<string>,
                      cache0: map<Id, CacheEntry>, d: MasterIndex, id: Id)
    requires Loaded(env, userName) == Some(d)
    requires PruneRuns(env, userName, Plan(env, fileTypes, userName, cache0, d))
    requires id in Scan(env, fileTypes, userName, Reconcile(env, fileTypes, userName, cache0).cache)
    ensures exists v :: v in Plan(env, fileTypes, userName, Reconcile(env, fileTypes, userName, cache0).cache, d) &&
                        v.id == id
  {
    if forall i :: 0 <= i < |d.keys| ==> IdOf(env, userName, d.keys[i]) != id {
      UnnamedIdPruned(env, fileTypes, userName, cache0, d, id);
    } else {
      var i :| 0 <= i < |d.keys| && IdOf(env, userName, d.keys[i]) == id;
      NamedIdVisited(env, fileTypes, userName, Reconcile(env, fileTypes, userName, cache0).cache, d, i);
    }
  }

  /** A record whose id no key of the index has is gone from the scan once the prune ran. */
  lemma UnnamedIdPruned(env: SyncEnv, fileTypes: seq<string>, userName: Option<string>,
                        cache0: map<Id, CacheEntry>, d: MasterIndex, id: Id)
    requires Loaded(env, userName) == Some(d)
    requires PruneRuns(env, userName, Plan(env, fileTypes, userName, cache0, d))
    requires forall i :: 0 <= i < |d.keys| ==> IdOf(env, userName, d.keys[i]) != id
    ensures id !in Scan(env, fileTypes, userName, Reconcile(env, fileTypes, userName, cache0).cache)
  {
    var plan1 := Plan(env, fileTypes, userName, cache0, d);
    var c1 := Reconcile(env, fileTypes, userName, cache0).cache;
    PlanFacts(env, fileTypes, userName, cache0, d);
    forall v | v in plan1 && v.outcome.Stored? ensures v.id != id {
      var j :| 0 <= j < |plan1| && plan1[j] == v;
    }
    ReconcileUntouched(env, fileTypes, userName, cache0, d, id);
    if id in c1 {
      assert id in cache0;
      ReconcileDeletes(env, fileTypes, userName, cache0, d, id);
      assert !InScope(cache0[id], env.ownerPublicKey, fileTypes, userName);
    }
  }

  /** Every key of the index is visited with its id, whatever the cache. */
  lemma NamedIdVisited(env: SyncEnv, fileTypes: seq<string>, userName: Option<string>,
                       c: map<Id, CacheEntry>, d: MasterIndex, i: int)
    requires 0 <= i < |d.keys|
    ensures exists v :: v in Plan(env, fileTypes, userName, c, d) && v.id == IdOf(env, userName, d.keys[i])
  {
    var plan := Plan(env, fileTypes, userName, c, d);
    PlanFacts(env, fileTypes, userName, c, d);
    assert plan[i] in plan;
  }

  /** After a first run whose prune ran, the second run's prune finds nothing to delete. */
  lemma OrphansGone(env: SyncEnv, fileTypes: seq<string>, userName: Option<string>,
                    cache0: map<Id, CacheEntry>, c1: map<Id, CacheEntry>, d: MasterIndex)
    requires Loaded(env, userName) == Some(d)
    requires c1 == Reconcile(env, fileTypes, userName, cache0).cache
    requires PruneRuns(env, userName, Plan(env, fileTypes, userName, cache0, d))
    ensures var plan2 := Plan(env, fileTypes, userName, c1, d);
      Orphans(Scan(env, fileTypes, userName, c1), Fold(c1, plan2).existing) == {}
  {
    var plan2 := Plan(env, fileTypes, userName, c1, d);
    FoldExisting(c1, plan2);
    forall id | id in Scan(env, fileTypes, userName, c1) ensures id in Fold(c1, plan2).existing {
      NoOrphansLeft(env, fileTypes, userName, cache0, d, id);
    }
  }

  /**
   * Reconciling twice with the same remote state: the second run puts nothing, reports a
   * count of 0, and leaves the cache exactly as the first run left it.
   */
  lemma ReconcileTwice(env: SyncEnv, fileTypes: seq<string>, userName: Option<string>,
                       cache0: map<Id, CacheEntry>)
    requires Loaded(env, userName).Some?
    requires DistinctIds(env, userName, Loaded(env, userName).value)
    requires IndexFilesAgree(env, fileTypes, userName, Loaded(env, userName).value)
    ensures var r1 := Reconcile(env, fileTypes, userName, cache0);
      var r2 := Reconcile(env, fileTypes, userName, r1.cache);
      r2.count == 0 && r2.cache == r1.cache
  {
    var d := Loaded(env, userName).value;
    var c1 := Reconcile(env, fileTypes, userName, cache0).cache;
    var plan2 := Plan(env, fileTypes, userName, c1, d);
    FirstRun(env, fileTypes, userName, cache0, d);
    SecondPlanStoresNothing(env, fileTypes, userName, cache0, c1, d);
    ReconcileCount(env, fileTypes, userName, c1, d);
    ReconcileCache(env, fileTypes, userName, c1, d);
    FoldWithoutStores(c1, plan2);
    var r2 := Reconcile(env, fileTypes, userName, c1);
    var st2 := Fold(c1, plan2);
    assert r2.count == 0;
    if PruneRuns(env, userName, Plan(env, fileTypes, userName, cache0, d)) {
      OrphansGone(env, fileTypes, userName, cache0, c1, d);
      assert st2.cache - {} == c1;
    } else {
      SecondPlanFailsAgain(env, fileTypes, userName, cache0, c1, d);
      assert !PruneRuns(env, userName, plan2);
    }
    assert r2.cache == c1;
  }

  // ---- the run after a self-heal ----

  /**
   * The remote state the next run meets once the self-heal write has replaced the scope's
   * master index with `healed`; every other read answers as before.
   */
  function HealedEnv(env: SyncEnv, userName: Option<string>, healed: MasterIndex): SyncEnv
  {
    var file := MasterIndexFileName(Root(env, userName));
    env.(readMaster := (f: string, u: Option<string>) =>
           if f == file && u == userName then Some(healed) else env.readMaster(f, u))
  }

  /** Only the master-index read changes: ids, scans and the fate of every key are as before. */
  lemma HealedEnvAgrees(env: SyncEnv, userName: Option<string>, healed: MasterIndex)
    ensures var env2 := HealedEnv(env, userName, healed);
      Loaded(env2, userName) == Some(healed) &&
      (forall k :: IdOf(env2, userName, k) == IdOf(env, userName, k)) &&
      (forall fileTypes, c :: Scan(env2, fileTypes, userName, c) == Scan(env, fileTypes, userName, c)) &&
      (forall ec, k, t :: Classify(env2, userName, ec, k, t) == Classify(env, userName, ec, k, t))
  {
  }

  /** The cache ids of a set of master-index keys. */
  function IdsOf(env: SyncEnv, userName: Option<string>, files: set<string>): set<Id>
  {
    set k | k in files :: IdOf(env, userName, k)
  }

  /**
   * In the run after a successful self-heal, a key of the healed index is neither stored
   * nor lost: it is a key of the first run's index that did not fail there.
   */
  lemma HealedVisit(env: SyncEnv, fileTypes: seq<string>, userName: Option<string>,
                    cache0: map<Id, CacheEntry>, j: nat)
    requires Loaded(env, userName).Some?
    requires DistinctIds(env, userName, Loaded(env, userName).value)
    requires IndexFilesAgree(env, fileTypes, userName, Loaded(env, userName).value)
    requires Reconcile(env, fileTypes, userName, cache0).masterWrite.Some?
    requires j < |Reconcile(env, fileTypes, userName, cache0).masterWrite.value.keys|
    ensures var d := Loaded(env, userName).value;
      var r1 := Reconcile(env, fileTypes, userName, cache0);
      var h := r1.masterWrite.value;
      var plan2 := Plan(HealedEnv(env, userName, h), fileTypes, userName, r1.cache, h);
      |plan2| == |h.keys| && plan2[j].id == IdOf(env, userName, h.keys[j]) &&
      !plan2[j].outcome.Stored? && !plan2[j].outcome.Failed? &&
      h.keys[j] in d.keys && h.keys[j] !in FailedFiles(Plan(env, fileTypes, userName, cache0, d))
  {
    var d := Loaded(env, userName).value;
    var r1 := Reconcile(env, fileTypes, userName, cache0);
    var c1 := r1.cache;
    var h := r1.masterWrite.value;
    var env2 := HealedEnv(env, userName, h);
    var plan1 := Plan(env, fileTypes, userName, cache0, d);
    var failed := FailedFiles(plan1);
    HealedEnvAgrees(env, userName, h);
    ReconcileMasterWrite(env, fileTypes, userName, cache0, d);
    PlanFacts(env2, fileTypes, userName, c1, h);
    PlanFacts(env, fileTypes, userName, c1, d);
    PlanFacts(env, fileTypes, userName, cache0, d);
    var k := h.keys[j];
    assert k in h.keys;
    assert k in d.keys && k !in failed;
    var i :| 0 <= i < |d.keys| && d.keys[i] == k;
    assert h.vals[k] == d.vals[k];
    FirstRun(env, fileTypes, userName, cache0, d);
    SecondVisit(env, fileTypes, userName, cache0, c1, d, i);
    var planD := Plan(env, fileTypes, userName, c1, d);
    var plan2 := Plan(env2, fileTypes, userName, c1, h);
    assert plan2[j].outcome == planD[i].outcome;
    assert plan1[i] in plan1;
    assert !plan1[i].outcome.Failed?;
  }

  /** An id visited over `d` but not over `h`, the keys of `d` outside `failed`, is the id of a failed key. */
  lemma UnvisitedIdIsFailed(env: SyncEnv, userName: Option<string>, d: MasterIndex, h: MasterIndex,
                            failed: set<string>, planD: seq<Visit>, plan2: seq<Visit>, id: Id)
    requires |planD| == |d.keys| && forall i :: 0 <= i < |d.keys| ==> planD[i].id == IdOf(env, userName, d.keys[i])
    requires |plan2| == |h.keys| && forall j :: 0 <= j < |h.keys| ==> plan2[j].id == IdOf(env, userName, h.keys[j])
    requires forall k :: k in h.keys <==> k in d.keys && k !in failed
    requires exists v :: v in planD && v.id == id
    requires forall v :: v in plan2 ==> v.id != id
    ensures id in IdsOf(env, userName, failed)
  {
    var v :| v in planD && v.id == id;
    var i :| 0 <= i < |planD| && planD[i] == v;
    var k := d.keys[i];
    assert k in d.keys;
    assert k in failed;
  }

  /** With distinct ids, no visit over `h`, the keys of `d` outside `failed`, has the id of a failed key. */
  lemma FailedIdUnvisited(env: SyncEnv, userName: Option<string>, d: MasterIndex, h: MasterIndex,
                          failed: set<string>, plan2: seq<Visit>, k: string)
    requires DistinctIds(env, userName, d)
    requires k in failed && k in d.keys
    requires |plan2| == |h.keys| && forall j :: 0 <= j < |h.keys| ==> plan2[j].id == IdOf(env, userName, h.keys[j])
    requires forall k :: k in h.keys <==> k in d.keys && k !in failed
    ensures forall v :: v in plan2 ==> v.id != IdOf(env, userName, k)
  {
    forall v | v in plan2 ensures v.id != IdOf(env, userName, k) {
      var j :| 0 <= j < |plan2| && plan2[j] == v;
      var k2 := h.keys[j];
      assert k2 in h.keys;
      var i1 :| 0 <= i1 < |d.keys| && d.keys[i1] == k;
      var i2 :| 0 <= i2 < |d.keys| && d.keys[i2] == k2;
      assert i1 != i2;
      if i1 < i2 {
        assert IdOf(env, userName, d.keys[i1]) != IdOf(env, userName, d.keys[i2]);
      } else {
        assert IdOf(env, userName, d.keys[i2]) != IdOf(env, userName, d.keys[i1]);
      }
    }
  }

  /**
   * Over `h`, the keys of `d` outside `failed`, the orphans of a scan whose every id is
   * visited over `d` are exactly the scanned ids of failed keys.
   */
  lemma OrphansOverHealedKeys(env: SyncEnv, userName: Option<string>, d: MasterIndex, h: MasterIndex,
                              failed: set<string>, planD: seq<Visit>, plan2: seq<Visit>, ec: map<Id, Option<int>>)
    requires DistinctIds(env, userName, d)
    requires |planD| == |d.keys| && forall i :: 0 <= i < |d.keys| ==> planD[i].id == IdOf(env, userName, d.keys[i])
    requires |plan2| == |h.keys| && forall j :: 0 <= j < |h.keys| ==> plan2[j].id == IdOf(env, userName, h.keys[j])
    requires forall k :: k in h.keys <==> k in d.keys && k !in failed
    requires forall k :: k in failed ==> k in d.keys
    requires forall id :: id in ec ==> exists v :: v in planD && v.id == id
    ensures Orphans(ec, set v | v in plan2 :: v.id) == IdsOf(env, userName, failed) * ec.Keys
  {
    var e2 := set v | v in plan2 :: v.id;
    forall id | id in ec && id !in e2 ensures id in IdsOf(env, userName, failed) {
      UnvisitedIdIsFailed(env, userName, d, h, failed, planD, plan2, id);
    }
    forall id | id in IdsOf(env, userName, failed) ensures id !in e2 {
      var k :| k in failed && IdOf(env, userName, k) == id;
      FailedIdUnvisited(env, userName, d, h, failed, plan2, k);
    }
  }

  /** The failed keys of a visit per key of `d` are keys of `d`. */
  lemma FailedFilesAreKeys(plan: seq<Visit>, d: MasterIndex)
    requires |plan| == |d.keys| && forall i :: 0 <= i < |d.keys| ==> plan[i].indexFile == d.keys[i]
    ensures forall k :: k in FailedFiles(plan) ==> k in d.keys
  {
    forall k | k in FailedFiles(plan) ensures k in d.keys {
      var v :| v in plan && v.outcome.Failed? && v.indexFile == k;
      var i :| 0 <= i < |plan| && plan[i] == v;
    }
  }

  /**
   * After a successful self-heal the prune of the next run deletes exactly the collected
   * records of the keys that failed: every other collected id belongs to a healed key.
   */
  lemma HealedOrphans(env: SyncEnv, fileTypes: seq<string>, userName: Option<string>,
                      cache0: map<Id, CacheEntry>)
    requires Loaded(env, userName).Some?
    requires DistinctIds(env, userName, Loaded(env, userName).value)
    requires env.masterWriteOk
    requires Reconcile(env, fileTypes, userName, cache0).masterWrite.Some?
    ensures var d := Loaded(env, userName).value;
      var r1 := Reconcile(env, fileTypes, userName, cache0);
      var h := r1.masterWrite.value;
      var plan2 := Plan(HealedEnv(env, userName, h), fileTypes, userName, r1.cache, h);
      var ec := Scan(env, fileTypes, userName, r1.cache);
      Orphans(ec, set v | v in plan2 :: v.id)
        == IdsOf(env, userName, FailedFiles(Plan(env, fileTypes, userName, cache0, d))) * ec.Keys
  {
    var d := Loaded(env, userName).value;
    var r1 := Reconcile(env, fileTypes, userName, cache0);
    var c1 := r1.cache;
    var h := r1.masterWrite.value;
    var plan1 := Plan(env, fileTypes, userName, cache0, d);
    var plan2 := Plan(HealedEnv(env, userName, h), fileTypes, userName, c1, h);
    var planD := Plan(env, fileTypes, userName, c1, d);
    var failed := FailedFiles(plan1);
    var ec := Scan(env, fileTypes, userName, c1);
    HealedEnvAgrees(env, userName, h);
    PlanFacts(HealedEnv(env, userName, h), fileTypes, userName, c1, h);
    PlanFacts(env, fileTypes, userName, c1, d);
    PlanFacts(env, fileTypes, userName, cache0, d);
    ReconcileMasterWrite(env, fileTypes, userName, cache0, d);
    assert forall j :: 0 <= j < |h.keys| ==> plan2[j].id == IdOf(env, userName, h.keys[j]);
    FailedFilesAreKeys(plan1, d);
    assert PruneRuns(env, userName, plan1);
    forall id | id in ec ensures exists v :: v in planD && v.id == id {
      NoOrphansLeft(env, fileTypes, userName, cache0, d, id);
    }
    OrphansOverHealedKeys(env, userName, d, h, failed, planD, plan2, ec);
  }

  /**
   * The run the worker makes after a successful self-heal reads the healed master index. It
   * puts nothing, reports a count of 0, writes no master index, and its prune deletes exactly
   * the collected records of the keys that failed in the first run (which that run's prune
   * kept, since `existing` marks failed keys too). Every other record stays as it was.
   */
  lemma ReconcileAfterHeal(env: SyncEnv, fileTypes: seq<string>, userName: Option<string>,
                           cache0: map<Id, CacheEntry>)
    requires Loaded(env, userName).Some?
    requires DistinctIds(env, userName, Loaded(env, userName).value)
    requires IndexFilesAgree(env, fileTypes, userName, Loaded(env, userName).value)
    requires env.masterWriteOk
    requires Reconcile(env, fileTypes, userName, cache0).masterWrite.Some?
    ensures var r1 := Reconcile(env, fileTypes, userName, cache0);
      var r2 := Reconcile(HealedEnv(env, userName, r1.masterWrite.value), fileTypes, userName, r1.cache);
      var failed := FailedFiles(Plan(env, fileTypes, userName, cache0, Loaded(env, userName).value));
      r2.count == 0 && r2.masterWrite.None? &&
      r2.cache == r1.cache - (IdsOf(env, userName, failed) * Scan(env, fileTypes, userName, r1.cache).Keys)
  {
    var r1 := Reconcile(env, fileTypes, userName, cache0);
    var c1 := r1.cache;
    var h := r1.masterWrite.value;
    var env2 := HealedEnv(env, userName, h);
    var plan2 := Plan(env2, fileTypes, userName, c1, h);
    HealedEnvAgrees(env, userName, h);
    PlanFacts(env2, fileTypes, userName, c1, h);
    forall j | 0 <= j < |plan2| ensures !plan2[j].outcome.Stored? && !plan2[j].outcome.Failed? {
      HealedVisit(env, fileTypes, userName, cache0, j);
    }
    assert StoredPositions(plan2) == {};
    assert !SomeFailure(plan2);
    ReconcileCount(env2, fileTypes, userName, c1, h);
    ReconcileMasterWrite(env2, fileTypes, userName, c1, h);
    ReconcileCache(env2, fileTypes, userName, c1, h);
    FoldWithoutStores(c1, plan2);
    FoldExisting(c1, plan2);
    HealedOrphans(env, fileTypes, userName, cache0);
  }

  // ---- index files that disagree with the master index ----

  lemma SectionInjective(owner: string, t1: string, t2: string)
    requires Section(owner, t1) == Section(owner, t2)
    ensures t1 == t2
  {
    var n := |owner| + 1;
    assert Section(owner, t1)[n..] == t1;
    assert Section(owner, t2)[n..] == t2;
  }

  /**
   * A record whose type is not scanned, whose time is falsy, or whose time is older than the
   * master index's time `t` is fetched again by the next scan.
   */
  lemma StaleRecordRefetched(c1: map<Id, CacheEntry>, owner: string, fileTypes: seq<string>, userName: Option<string>,
                             id: Id, fileType: string, t: Option<int>)
    requires id in c1 && c1[id].section == Section(owner, fileType)
    requires !(fileType in fileTypes && TruthyNum(c1[id].lastUpdated) &&
               (TruthyNum(t) ==> t.value <= c1[id].lastUpdated.value))
    ensures NeedsFetch(t, Cached(ExistingCache(c1, owner, fileTypes, userName), id))
  {
    if fileType !in fileTypes && c1[id].section in Sections(owner, fileTypes) {
      var t' :| t' in fileTypes && Section(owner, t') == c1[id].section;
      SectionInjective(owner, t', fileType);
    }
  }

  /**
   * An index file that disagrees with the master index (its type is not scanned, its own
   * time is falsy, or the master index's time is later) is read and put again by every
   * rerun over an unchanged master index: its record is collected with a stale time, or not
   * at all. Such a rerun therefore reports a count above 0.
   */
  lemma DisagreeingFileStoredAgain(env: SyncEnv, fileTypes: seq<string>, userName: Option<string>,
                                                      cache0: map<Id, CacheEntry>, d: MasterIndex, i: nat)
    requires Loaded(env, userName) == Some(d) && DistinctIds(env, userName, d)
    requires i < |d.keys| && i < |Plan(env, fileTypes, userName, cache0, d)|
    requires Plan(env, fileTypes, userName, cache0, d)[i].outcome.Stored?
    requires d.keys[i] in d.vals && !AgreesWithIndex(env, fileTypes, userName, d, d.keys[i])
    ensures var c1 := Reconcile(env, fileTypes, userName, cache0).cache;
      var plan2 := Plan(env, fileTypes, userName, c1, d);
      i < |plan2| && plan2[i].outcome == Plan(env, fileTypes, userName, cache0, d)[i].outcome &&
      Reconcile(env, fileTypes, userName, c1).count > 0
  {
    var plan1 := Plan(env, fileTypes, userName, cache0, d);
    var c1 := Reconcile(env, fileTypes, userName, cache0).cache;
    var plan2 := Plan(env, fileTypes, userName, c1, d);
    var ec1 := Scan(env, fileTypes, userName, cache0);
    var ec2 := Scan(env, fileTypes, userName, c1);
    PlanFacts(env, fileTypes, userName, cache0, d);
    PlanFacts(env, fileTypes, userName, c1, d);
    var k := d.keys[i];
    var id := IdOf(env, userName, k);
    var t := d.vals[k];
    KeyIdAfterFirstRun(env, fileTypes, userName, cache0, d, i);
    ClassifyStored(env, userName, ec1, k, t);
    var e := plan1[i].outcome.entry;
    assert id in c1 && c1[id] == e;
    var meta := env.readIndex(k, KeyRead(env, userName, k, FileIdFromIndexPath(k).value), userName).value;
    assert e.section == Section(env.ownerPublicKey, meta.fileType) && e.lastUpdated == meta.lastUpdatedUTC;
    StaleRecordRefetched(c1, env.ownerPublicKey, fileTypes, userName, id, meta.fileType, t);
    RefetchedKeyStoredAgain(env, fileTypes, userName, c1, d, i, plan1[i].outcome);
  }

  /**
   * A key the next scan fetches again, whose read is stored (`o`, its fate when nothing is
   * cached), is stored the same way by the rerun and counted.
   */
  lemma RefetchedKeyStoredAgain(env: SyncEnv, fileTypes: seq<string>, userName: Option<string>,
                                c1: map<Id, CacheEntry>, d: MasterIndex, i: nat, o: Outcome)
    requires Loaded(env, userName) == Some(d) && i < |d.keys| && d.keys[i] in d.vals
    requires NeedsFetch(d.vals[d.keys[i]], Cached(Scan(env, fileTypes, userName, c1), IdOf(env, userName, d.keys[i])))
    requires o.Stored? && o == Classify(env, userName, map[], d.keys[i], d.vals[d.keys[i]])
    ensures var plan2 := Plan(env, fileTypes, userName, c1, d);
      i < |plan2| && plan2[i].outcome == o && Reconcile(env, fileTypes, userName, c1).count > 0
  {
    var plan2 := Plan(env, fileTypes, userName, c1, d);
    PlanFacts(env, fileTypes, userName, c1, d);
    assert plan2[i].outcome == Classify(env, userName, Scan(env, fileTypes, userName, c1), d.keys[i], d.vals[d.keys[i]]);
    ReconcileCount(env, fileTypes, userName, c1, d);
    assert i in StoredPositions(plan2);
  }
}
