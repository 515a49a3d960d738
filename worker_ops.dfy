/**
 * The worker's smaller operations: rebuilding a lost master index from a file listing,
 * the single-entry cache update and removal the app requests after editing a file, the
 * batch cache fill, and the pruning of a group index of entries whose files are gone.
 */
module WorkerOps {
  import opened Wrappers
  import opened JsValues
  import opened Dicts
  import opened Indexes
  import opened Addressing
  import opened CacheStore
  import opened SyncEngine

  /** How an async worker function ends: it returns a boolean, or it throws. */
  datatype Completion = Returned(value: bool) | Threw

  // ---- createMasterIndex ----

  /** A listed file that belongs in a rebuilt master index. */
  predicate IsIndexListing(name: string)
  {
    (StartsWith(name, "videos/") || StartsWith(name, "images/")) && EndsWith(name, ".index")
  }

  /** The listed names `IsIndexListing` keeps, in listing order. */
  function IndexListings(names: seq<string>): seq<string>
  {
    if names == [] then []
    else if IsIndexListing(names[|names| - 1]) then IndexListings(names[..|names| - 1]) + [names[|names| - 1]]
    else IndexListings(names[..|names| - 1])
  }

  /**
   * The dictionary the listFiles callback fills: every index listing maps to null (its
   * time is unknown), and nothing else is in it.
   */
  function ListedMasterIndex(names: seq<string>): (r: MasterIndex)
    ensures forall k :: k in r.vals <==> k in names && IsIndexListing(k)
    ensures forall k | k in r.vals :: r.vals[k] == None
  {
    if names == [] then
      var e: Dict<Option<int>> := Empty(); e
    else
      var prev := ListedMasterIndex(names[..|names| - 1]);
      var name := names[|names| - 1];
      if IsIndexListing(name) then Set(prev, name, None) else prev
  }

  /** A listing without repeated names yields the index listings as keys, in listing order. */
  lemma {:induction false} ListedKeysInOrder(names: seq<string>)
    requires Distinct(names)
    ensures ListedMasterIndex(names).keys == IndexListings(names)
  {
    if names != [] {
      var init := names[..|names| - 1];
      var name := names[|names| - 1];
      assert Distinct(init) by {
        forall i, j | 0 <= i < j < |init| ensures init[i] != init[j] {
          assert init[i] == names[i] && init[j] == names[j];
        }
      }
      ListedKeysInOrder(init);
      if IsIndexListing(name) {
        assert name !in init by {
          forall i | 0 <= i < |init| ensures init[i] != name {
            assert init[i] == names[i];
          }
        }
        assert name !in ListedMasterIndex(init).vals;
      }
    }
  }

  /** One more listed name adds its key exactly when it is an index listing. */
  lemma ListedStep(names: seq<string>, i: nat)
    requires i < |names|
    ensures ListedMasterIndex(names[..i + 1]) ==
      if IsIndexListing(names[i]) then Set(ListedMasterIndex(names[..i]), names[i], None)
      else ListedMasterIndex(names[..i])
  {
    assert names[..i + 1][..i] == names[..i];
  }

  /** The loop of createMasterIndex: one key, with an undefined time, per index listing. */
  method BuildListedIndex(names: seq<string>) returns (index: MasterIndex)
    ensures index == ListedMasterIndex(names)
  {
    index := Empty();
    var i := 0;
    while i < |names|
      invariant 0 <= i <= |names|
      invariant index == ListedMasterIndex(names[..i])
    {
      ListedStep(names, i);
      if IsIndexListing(names[i]) {
        index := Set(index, names[i], None);
      }
      i := i + 1;
    }
    assert names[..i] == names;
  }

  /** A write of the master-index file the worker attempts. */
  datatype MasterWrite = PutMaster(index: MasterIndex) | DeleteMaster

  /**
   * createMasterIndex: the dictionary built from `listing` (None when listFiles throws),
   * then a put, and when that put throws a delete and exactly one more put. The outcomes
   * of the remote calls are parameters; `threw` says whether the function throws.
   */
  method CreateMasterIndex(listing: Option<seq<string>>, firstPutOk: bool, deleteOk: bool, secondPutOk: bool)
    returns (index: MasterIndex, writes: seq<MasterWrite>, threw: bool)
    ensures listing.Some? ==> index == ListedMasterIndex(listing.value)
    ensures listing.None? ==> writes == [] && threw
    ensures listing.Some? && firstPutOk ==> writes == [PutMaster(index)] && !threw
    ensures listing.Some? && !firstPutOk ==>
      |writes| == (if deleteOk then 3 else 2) && writes[0] == PutMaster(index) && writes[1] == DeleteMaster &&
      (deleteOk ==> writes[2] == PutMaster(index)) && (threw <==> !(deleteOk && secondPutOk))
  {
    var e: Dict<Option<int>> := Empty();
    index := e;
    if listing.None? {
      return index, [], true;
    }
    index := BuildListedIndex(listing.value);
    writes := [PutMaster(index)];
    threw := false;
    if !firstPutOk {
      writes := writes + [DeleteMaster];
      if !deleteOk {
        threw := true;
        return;
      }
      writes := writes + [PutMaster(index)];
      threw := !secondPutOk;
    }
  }

  // ---- updateCachedIndex / removeCachedIndex ----

  /**
   * The owner key of a single-entry update: the `pk` argument when truthy, else the
   * session's public key when the session carries an app private key; None otherwise.
   */
  function OwnerKey(env: SyncEnv, pk: Option<string>, appKey: bool): Option<string>
  {
    if TruthyStr(pk) then pk else if appKey then Some(env.ownerPublicKey) else None
  }

  /**
   * The private-key path updateCachedIndex has getPrivateKey read. Its arguments arrive
   * shifted by one: the owner key lands in the `id` parameter, the file id in `type`, and
   * the type in `userName`.
   */
  function ShiftedKeyFile(env: SyncEnv, owner: string, fileId: string, fileType: string): string
  {
    WorkerPrivateKeyFileName(env.addr, env.ownerPublicKey, owner, fileId, Some(fileType))
  }

  /** What one updateCachedIndex call does to the cache. */
  datatype CacheUpdate = NoUpdate | Aborted | Upserted(id: Id, entry: CacheEntry)

  /** The value an update returns, or that it throws. */
  function UpdateCompletion(u: CacheUpdate): Completion
  {
    match u
    case NoUpdate => Returned(false)
    case Aborted => Threw
    case Upserted(_, _) => Returned(true)
  }

  /** The cache after an update. */
  function ApplyUpdate(cache: map<Id, CacheEntry>, u: CacheUpdate): map<Id, CacheEntry>
  {
    if u.Upserted? then cache[u.id := u.entry] else cache
  }

  /**
   * updateCachedIndex(indexFile, pk): for a self-scope id only (no user name), reads the
   * key through the shifted lookup; with a truthy key reads and parses the index file and
   * seals it (either failure throws), then puts the record. A falsy owner key, file id or
   * private key returns false. `mediaType` is not consulted.
   */
  function PlanUpdate(env: SyncEnv, indexFile: string, pk: Option<string>, appKey: bool): CacheUpdate
  {
    var owner := OwnerKey(env, pk, appKey);
    var fileId := FileIdFromIndexPath(indexFile);
    var fileType := TypeFromIndexPath(indexFile);
    if !TruthyStr(owner) || !TruthyStr(fileId) then NoUpdate
    else
      var privateKey := env.readKey(ShiftedKeyFile(env, owner.value, fileId.value, fileType), Some(fileType));
      if !TruthyStr(privateKey) then NoUpdate
      else match env.readIndex(indexFile, privateKey, None)
        case None => Aborted
        case Some(meta) =>
          match env.seal(meta.json)
          case None => Aborted
          case Some(blob) =>
            Upserted(IndexId(env.addr, owner.value, indexFile, None),
                     CacheEntry(Section(owner.value, meta.fileType), blob, meta.lastUpdatedUTC, None))
  }

  /** updateCachedIndex, step by step. */
  method UpdateCachedIndex(db: CacheDb, env: SyncEnv, indexFile: string, pk: Option<string>, appKey: bool)
    returns (c: Completion)
    modifies db
    ensures c == UpdateCompletion(PlanUpdate(env, indexFile, pk, appKey))
    ensures db.entries == ApplyUpdate(old(db.entries), PlanUpdate(env, indexFile, pk, appKey))
  {
    var ownerPublicKey := OwnerKey(env, pk, appKey);
    if !TruthyStr(ownerPublicKey) {
      return Returned(false);
    }
    var indexID := IndexId(env.addr, ownerPublicKey.value, indexFile, None);
    var id := FileIdFromIndexPath(indexFile);
    var fileType := TypeFromIndexPath(indexFile);
    if !TruthyStr(id) {
      return Returned(false);
    }
    var privateKey := env.readKey(ShiftedKeyFile(env, ownerPublicKey.value, id.value, fileType), Some(fileType));
    if !TruthyStr(privateKey) {
      return Returned(false);
    }
    var metaData := env.readIndex(indexFile, privateKey, None);
    if metaData.None? {
      return Threw;
    }
    var encryptedJson := env.seal(metaData.value.json);
    if encryptedJson.None? {
      return Threw;
    }
    db.Put(indexID, CacheEntry(Section(ownerPublicKey.value, metaData.value.fileType), encryptedJson.value,
                               metaData.value.lastUpdatedUTC, None));
    c := Returned(true);
  }

  /** The record removeCachedIndex deletes: the self-scope id of the path under the owner key. */
  function RemovedId(env: SyncEnv, indexFile: string, pk: Option<string>, appKey: bool): Option<Id>
  {
    var owner := OwnerKey(env, pk, appKey);
    if TruthyStr(owner) then Some(IndexId(env.addr, owner.value, indexFile, None)) else None
  }

  /** removeCachedIndex(indexFile, pk): deletes the self-scope record and returns true, or returns false. */
  method RemoveCachedIndex(db: CacheDb, env: SyncEnv, indexFile: string, pk: Option<string>, appKey: bool)
    returns (removed: bool)
    modifies db
    ensures removed <==> RemovedId(env, indexFile, pk, appKey).Some?
    ensures removed ==> db.entries == old(db.entries) - {RemovedId(env, indexFile, pk, appKey).value}
    ensures !removed ==> db.entries == old(db.entries)
  {
    var publicKey := OwnerKey(env, pk, appKey);
    if TruthyStr(publicKey) {
      var id := IndexId(env.addr, publicKey.value, indexFile, None);
      db.Delete(id);
      return true;
    }
    return false;
  }

  /** Both single-entry operations address the id the self-scope reconciliation gives the path. */
  lemma SingleEntryOpsUseSelfScopeId(env: SyncEnv, indexFile: string, pk: Option<string>, appKey: bool)
    requires OwnerKey(env, pk, appKey) == Some(env.ownerPublicKey) && env.ownerPublicKey != ""
    ensures RemovedId(env, indexFile, pk, appKey) == Some(IdOf(env, None, indexFile))
    ensures PlanUpdate(env, indexFile, pk, appKey).Upserted? ==>
      PlanUpdate(env, indexFile, pk, appKey).id == IdOf(env, None, indexFile)
  {
  }

  /** What an update writes, removal deletes: the update is undone for that record. */
  lemma RemoveUndoesUpdate(env: SyncEnv, indexFile: string, pk: Option<string>, appKey: bool,
                           cache: map<Id, CacheEntry>)
    requires PlanUpdate(env, indexFile, pk, appKey).Upserted?
    ensures RemovedId(env, indexFile, pk, appKey) == Some(PlanUpdate(env, indexFile, pk, appKey).id)
    ensures ApplyUpdate(cache, PlanUpdate(env, indexFile, pk, appKey)) - {PlanUpdate(env, indexFile, pk, appKey).id}
         == cache - {PlanUpdate(env, indexFile, pk, appKey).id}
  {
  }

  /**
   * The shifted lookup never reads the key file the reconciliation reads for the path:
   * for a type other than "" and "share" its path lies under `share/`, while the owner's
   * own key file lies under the type.
   */
  lemma {:induction false} ShiftedKeyFileDiffers(env: SyncEnv, owner: string, fileId: string, fileType: string)
    requires '/' !in fileType && fileType != "" && fileType != "share"
    ensures ShiftedKeyFile(env, owner, fileId, fileType) != WorkerPrivateKeyFileName(env.addr, env.ownerPublicKey, fileId, fileType, None)
  {
    var shifted := ShiftedKeyFile(env, owner, fileId, fileType);
    var own := WorkerPrivateKeyFileName(env.addr, env.ownerPublicKey, fileId, fileType, None);
    assert shifted == "share" + "/" + (env.addr(env.ownerPublicKey) + "/" + fileId + "/" + owner + "/private.key");
    assert own == fileType + "/" + (fileId + "/private.key");
    FirstSlashAfterType("share", env.addr(env.ownerPublicKey) + "/" + fileId + "/" + owner + "/private.key");
    FirstSlashAfterType(fileType, fileId + "/private.key");
  }

  /**
   * Against the self-scope reconciliation: when the shifted lookup reads the key the
   * reconciliation reads and the index file is in the current format, an update stores
   * exactly the record the reconciliation stores for that path, under the same id.
   */
  lemma UpdateAgreesWithReconcile(env: SyncEnv, indexFile: string, existingCache: map<Id, Option<int>>,
                                  lastUpdated: Option<int>)
    requires env.ownerPublicKey != ""
    requires NeedsFetch(lastUpdated, Cached(existingCache, IdOf(env, None, indexFile)))
    requires var fileId := FileIdFromIndexPath(indexFile);
      TruthyStr(fileId) &&
      var fileType := TypeFromIndexPath(indexFile);
      var key := env.readKey(ShiftedKeyFile(env, env.ownerPublicKey, fileId.value, fileType), Some(fileType));
      TruthyStr(key) &&
      key == env.readKey(WorkerPrivateKeyFileName(env.addr, env.ownerPublicKey, fileId.value, fileType, None), None) &&
      env.readIndex(indexFile, key, None).Some? && !env.readIndex(indexFile, key, None).value.hasMediaType
    ensures var u := PlanUpdate(env, indexFile, Some(env.ownerPublicKey), true);
      var o := Classify(env, None, existingCache, indexFile, lastUpdated);
      (u.Upserted? <==> o.Stored?) && (u.Aborted? <==> o.Failed?) &&
      (u.Upserted? ==> u.id == IdOf(env, None, indexFile) && u.entry == o.entry)
  {
  }

  /**
   * Unlike the reconciliation, an update caches an index file in the old format (one with
   * a `mediaType`).
   */
  lemma UpdateCachesOldFormat(env: SyncEnv, indexFile: string, pk: Option<string>, appKey: bool)
    requires var owner := OwnerKey(env, pk, appKey);
      var fileId := FileIdFromIndexPath(indexFile);
      TruthyStr(owner) && TruthyStr(fileId) &&
      var fileType := TypeFromIndexPath(indexFile);
      var key := env.readKey(ShiftedKeyFile(env, owner.value, fileId.value, fileType), Some(fileType));
      TruthyStr(key) && env.readIndex(indexFile, key, None).Some? &&
      env.readIndex(indexFile, key, None).value.hasMediaType &&
      env.seal(env.readIndex(indexFile, key, None).value.json).Some?
    ensures PlanUpdate(env, indexFile, pk, appKey).Upserted?
    ensures PlanUpdate(env, indexFile, pk, appKey).entry.shareName.None?
  {
  }

  // ---- addIndexesToCache ----

  /**
   * The updates of addIndexesToCache, one per index file in order with the session key
   * as `pk`; the first one that throws ends the batch, and the error passes to the caller.
   */
  function AddAll(env: SyncEnv, indexFiles: seq<string>, cache: map<Id, CacheEntry>): (Completion, map<Id, CacheEntry>)
  {
    if indexFiles == [] then (Returned(true), cache)
    else
      var u := PlanUpdate(env, indexFiles[0], Some(env.ownerPublicKey), true);
      if u.Aborted? then (Threw, cache)
      else AddAll(env, indexFiles[1..], ApplyUpdate(cache, u))
  }

  /** addIndexesToCache(indexFiles): false without an app private key, else the batch. */
  function AddIndexes(env: SyncEnv, appKey: bool, indexFiles: seq<string>, cache: map<Id, CacheEntry>)
    : (Completion, map<Id, CacheEntry>)
  {
    if appKey then AddAll(env, indexFiles, cache) else (Returned(false), cache)
  }

  /** addIndexesToCache, step by step. */
  method AddIndexesToCache(db: CacheDb, env: SyncEnv, appKey: bool, indexFiles: seq<string>)
    returns (c: Completion)
    modifies db
    ensures (c, db.entries) == AddIndexes(env, appKey, indexFiles, old(db.entries))
  {
    if !appKey {
      return Returned(false);
    }
    var publicKey := env.ownerPublicKey;
    var i := 0;
    while i < |indexFiles|
      invariant 0 <= i <= |indexFiles|
      invariant AddAll(env, indexFiles[i..], db.entries) == AddAll(env, indexFiles, old(db.entries))
    {
      assert indexFiles[i..][1..] == indexFiles[i + 1..];
      var r := UpdateCachedIndex(db, env, indexFiles[i], Some(publicKey), true);
      if r == Threw {
        return Threw;
      }
      i := i + 1;
    }
    c := Returned(true);
  }

  /** The batch throws exactly when one of its updates throws. */
  lemma {:induction false} AddAllThrowsIff(env: SyncEnv, indexFiles: seq<string>, cache: map<Id, CacheEntry>)
    ensures AddAll(env, indexFiles, cache).0 == Threw <==>
      exists i :: 0 <= i < |indexFiles| && PlanUpdate(env, indexFiles[i], Some(env.ownerPublicKey), true).Aborted?
    ensures AddAll(env, indexFiles, cache).0 != Threw ==> AddAll(env, indexFiles, cache).0 == Returned(true)
  {
    if indexFiles != [] {
      AddAllThrowsIff(env, indexFiles[1..], ApplyUpdate(cache, PlanUpdate(env, indexFiles[0], Some(env.ownerPublicKey), true)));
      forall i | 0 < i < |indexFiles|
        ensures indexFiles[1..][i - 1] == indexFiles[i]
      {
      }
    }
  }

  /** The batch touches only the ids its own updates write; every other record stays as it was. */
  lemma {:induction false} AddAllUntouched(env: SyncEnv, indexFiles: seq<string>, cache: map<Id, CacheEntry>, id: Id)
    requires forall i :: 0 <= i < |indexFiles| ==>
      var u := PlanUpdate(env, indexFiles[i], Some(env.ownerPublicKey), true);
      !(u.Upserted? && u.id == id)
    ensures var after := AddAll(env, indexFiles, cache).1;
      (id in after <==> id in cache) && (id in cache ==> after[id] == cache[id])
  {
    if indexFiles != [] {
      var u := PlanUpdate(env, indexFiles[0], Some(env.ownerPublicKey), true);
      assert !(u.Upserted? && u.id == id);
      forall i | 0 <= i < |indexFiles[1..]|
        ensures var u' := PlanUpdate(env, indexFiles[1..][i], Some(env.ownerPublicKey), true);
          !(u'.Upserted? && u'.id == id)
      {
        assert indexFiles[1..][i] == indexFiles[i + 1];
      }
      if !u.Aborted? {
        AddAllUntouched(env, indexFiles[1..], ApplyUpdate(cache, u), id);
      }
    }
  }

  // ---- validateGroupEntries ----

  /**
   * The remote reads of validateGroupEntries: getGroupIndex (an empty index when the read or
   * the parse fails) and whether the index file of an entry can be read from its owner's store.
   */
  datatype GroupEnv = GroupEnv(readGroup: string -> GroupIndex, fileExists: (string, Option<string>) -> bool)

  /** An entry whose index file is gone while the group still lists it with a truthy owner. */
  predicate Lost(genv: GroupEnv, g: GroupIndex, x: GroupEntry)
  {
    !genv.fileExists(x.indexFile, x.userName) && TruthyStr(Get(g, x.indexFile))
  }

  /** The paths of the lost entries. */
  function LostFiles(genv: GroupEnv, g: GroupIndex, missing: seq<GroupEntry>): set<string>
  {
    if missing == [] then {}
    else
      var x := missing[|missing| - 1];
      LostFiles(genv, g, missing[..|missing| - 1]) + (if Lost(genv, g, x) then {x.indexFile} else {})
  }

  /** A path is among the lost ones exactly when some lost entry names it. */
  lemma {:induction false} LostFilesMembers(genv: GroupEnv, g: GroupIndex, missing: seq<GroupEntry>, k: string)
    ensures k in LostFiles(genv, g, missing) <==>
      exists i :: 0 <= i < |missing| && Lost(genv, g, missing[i]) && missing[i].indexFile == k
  {
    if missing != [] {
      var init := missing[..|missing| - 1];
      LostFilesMembers(genv, g, init, k);
      if exists i :: 0 <= i < |init| && Lost(genv, g, init[i]) && init[i].indexFile == k {
        var i :| 0 <= i < |init| && Lost(genv, g, init[i]) && init[i].indexFile == k;
        assert missing[i] == init[i];
      }
      if exists i :: 0 <= i < |missing| && Lost(genv, g, missing[i]) && missing[i].indexFile == k {
        var i :| 0 <= i < |missing| && Lost(genv, g, missing[i]) && missing[i].indexFile == k;
        if i < |init| {
          assert init[i] == missing[i];
        }
      }
    }
  }

  /**
   * One pass of the loop, with `before` the paths deleted so far: the entry's path is
   * deleted exactly when the entry is lost and the path is still there.
   */
  lemma PruneStep(genv: GroupEnv, g: GroupIndex, before: set<string>, x: GroupEntry, groupIndex: GroupIndex)
    requires groupIndex == RemoveAll(g, before)
    ensures var del := !genv.fileExists(x.indexFile, x.userName) && TruthyStr(Get(groupIndex, x.indexFile));
      (del ==> Lost(genv, g, x)) &&
      (if del then Remove(groupIndex, x.indexFile) else groupIndex)
        == RemoveAll(g, before + (if Lost(genv, g, x) then {x.indexFile} else {}))
  {
    var k := x.indexFile;
    if k in groupIndex.vals {
      assert Get(groupIndex, k) == Get(g, k);
      if Lost(genv, g, x) {
        RemoveAllThenRemove(g, before, k);
      } else {
        assert before + {} == before;
      }
    } else {
      assert Get(groupIndex, k) == None;
      if Lost(genv, g, x) {
        assert k in before;
        assert before + {k} == before;
      } else {
        assert before + {} == before;
      }
    }
  }

  /** Some entry is lost exactly when the set of lost paths is not empty. */
  lemma LostFilesEmpty(genv: GroupEnv, g: GroupIndex, missing: seq<GroupEntry>)
    ensures LostFiles(genv, g, missing) != {} <==> exists i :: 0 <= i < |missing| && Lost(genv, g, missing[i])
  {
    if exists i :: 0 <= i < |missing| && Lost(genv, g, missing[i]) {
      var i :| 0 <= i < |missing| && Lost(genv, g, missing[i]);
      LostFilesMembers(genv, g, missing, missing[i].indexFile);
    } else if LostFiles(genv, g, missing) != {} {
      var k :| k in LostFiles(genv, g, missing);
      LostFilesMembers(genv, g, missing, k);
    }
  }

  /**
   * validateGroupEntries(e): with a truthy group id and a non-empty `missing` list (an
   * absent list is given as []), deletes from the group index every path whose index file
   * cannot be read and whose value is truthy, and writes the group index back (its failure
   * is swallowed) only when something was deleted. `write` is the index written, if any.
   */
  method ValidateGroupEntries(genv: GroupEnv, groupId: Option<string>, missing: seq<GroupEntry>)
    returns (write: Option<GroupIndex>)
    ensures write.Some? <==>
      TruthyStr(groupId) && exists i :: 0 <= i < |missing| && Lost(genv, genv.readGroup(groupId.value), missing[i])
    ensures write.Some? ==>
      write.value == RemoveAll(genv.readGroup(groupId.value), LostFiles(genv, genv.readGroup(groupId.value), missing))
  {
    write := None;
    if !(TruthyStr(groupId) && |missing| > 0) {
      return;
    }
    var g := genv.readGroup(groupId.value);
    var groupIndex: GroupIndex := g;
    var saveFlag := false;
    RemoveNothing(g);
    assert LostFiles(genv, g, missing[..0]) == {};
    var i := 0;
    while i < |missing|
      invariant 0 <= i <= |missing|
      invariant groupIndex == RemoveAll(g, LostFiles(genv, g, missing[..i]))
      invariant saveFlag <==> LostFiles(genv, g, missing[..i]) != {}
    {
      var x := missing[i];
      var found := genv.fileExists(x.indexFile, x.userName);
      PruneStep(genv, g, LostFiles(genv, g, missing[..i]), x, groupIndex);
      assert missing[..i + 1][..i] == missing[..i];
      if !found && TruthyStr(Get(groupIndex, x.indexFile)) {
        groupIndex := Remove(groupIndex, x.indexFile);
        saveFlag := true;
      }
      i := i + 1;
    }
    assert missing[..i] == missing;
    LostFilesEmpty(genv, g, missing);
    if saveFlag {
      write := Some(groupIndex);
    }
  }
}
