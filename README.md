# gaideo: index bookkeeping and cache reconciliation, in Dafny

gaideo stores encrypted videos and images in a per-user remote blob store (Gaia) and keeps
a local IndexedDB cache (`cached-indexes`) of the media metadata in step with a remote
*master index*, a dictionary from index-file paths (`<type>/<id>.index`) to last-modified
times. This project models the core of that bookkeeping and proves properties of it:

- the background worker `public/scripts/workers/gaia-worker.js`:
  - the cache ids and path parsers;
  - `createMasterIndex`;
  - the reconciliation `saveGaiaIndexesToCache`, with its scope filter, staleness test,
    upserts, self-heal and prune;
  - the single-entry `updateCachedIndex` and `removeCachedIndex`, and the batch
    `addIndexesToCache`;
  - `validateGroupEntries`;
  - the `message` switch and the `ready` post;
- the client utilities `src/utilities/gaia-utils.ts`:
  - `updateMasterIndex`, with its validation, mutation rules, private-key side table,
    share fan-out and worker requests;
  - `shareFile`;
  - the cache queries `getCacheEntries` and `getCacheEntriesFromGroup`;
  - the group and share editors;
- the FFmpeg helpers `src/utilities/ffmpeg-utils.ts`:
  - argument vectors, `clearFFMpegFileSystem` and one `runFFMpegWasm` run;
  - the HLS master playlist (section 4.3.4.2 of RFC 8216) and its bandwidth ladder;
  - the EXT-X-KEY rewrite (section 4.3.2.4 of RFC 8216);
  - the file naming and the packaging steps of `encryptVideo`.

The remote store, `lookupProfile` and the cryptography are oracles: function-valued fields
of environment datatypes (`SyncEnv`, `IndexEnv`, `GroupEnv`, `World`, `Keys`) that return a
value, or `None` where the call throws. `publicKeyToAddress` is an uninterpreted function
(`Addressing.Hash`). JavaScript truthiness is explicit: a timestamp is an `Option<int>`,
falsy when `None` or `0`, and a text is an `Option<string>`, falsy when `None` or `""`.
A JavaScript object is a `Dicts.Dict`, a map together with its key enumeration order, since
`for ... in` visits keys in insertion order. The IndexedDB store is the class
`CacheStore.CacheDb`, whose `entries` map the methods update in place. A cursor over its `section` or
`lastUpdated` index is a sequence of ids in cursor order, and a position in it. The worker is the class
`WorkerProtocol.GaiaWorker`, whose fields are its globals, the posts so far and the remote
writes attempted so far. The FFmpeg WebAssembly file system is the class
`FFmpegFs.Instance`, and the program it runs is a parameter (`FFmpegFs.Tool`).

Each loop of the source is a method with invariants. Each method is proved equal to a
specification function: `Reconcile`, `Pass`, `Matches`, `SortByTime`, `Respond`,
`Cleared` and the others. Lemmas about those functions state what the source promises.
The reconciliation, for example, is idempotent over an unchanged master index when the
cache ids are distinct and the index files agree with the master index
(`SyncIdempotence.ReconcileTwice`): a second run puts nothing, returns count 0 and leaves
the cache as the first run left it. When the first run heals the master index, the next
run reads the healed index (`SyncIdempotence.ReconcileAfterHeal`). That run also puts
nothing and returns count 0, and its prune deletes the records of the keys that failed.

Modules: `Wrappers`, `JsValues`, `Dicts`, `Indexes`, `Addressing`, `CacheStore`,
`SyncEngine`, `SyncProperties`, `SyncIdempotence`, `WorkerOps`, `Messages`,
`WorkerProtocol`, `MasterIndexUpdate`, `MasterIndexProperties`, `CacheQueries`, `Editors`,
`FFmpegFs`, `FFmpeg`.

## Model

| member | source | states |
|---|---|---|
| Addressing.IndexIdPreimage | src/utilities/gaia-utils.ts:277-281 | the hashed text is `${publicKey}_${index}`, with `_${userName}` appended exactly when the user name is non-empty |
| Addressing.UndefinedAndEmptyUserNameCoincide | public/scripts/workers/gaia-worker.js:83-91 | an undefined and an empty user name give the same cache id |
| Addressing.PreimageInjective | src/utilities/gaia-utils.ts:277-284 | for keys and paths free of '_' the hashed text determines the public key, the path and the (truthy) user name |
| Addressing.FileIdFromIndexPath | src/utilities/gaia-utils.ts:261-267 | null exactly when the path has no '/'; otherwise a text without '/' (what follows the last '/', first ".index" removed) |
| Addressing.TypeFromIndexPath | src/utilities/gaia-utils.ts:269-275 | the text before the first '/' (a prefix of the path, itself free of '/'), or "" when there is no '/' |
| Addressing.IndexPathRoundTrip | src/utilities/gaia-utils.ts:261-275 | parsing `type/id.index` gives back the id and the type (type without '/', id without '/' or '.') |
| Addressing.LastSlashOfIndexPath | public/scripts/workers/gaia-worker.js:176-182 | the last '/' of `type/id.index` is the one after the type, so the worker's parser sees `id.index` |
| Addressing.StripIndexSuffix | public/scripts/workers/gaia-worker.js:179 | removing the first ".index" from `id.index` gives the id back when the id has no '.' |
| Addressing.UserDirectory | public/scripts/workers/gaia-worker.js:111-114 | the share root is a non-empty path ending in '/' |
| Addressing.WorkerKeyFileAgrees | public/scripts/workers/gaia-worker.js:116-127 | the worker's key path is the utilities' `${root}${type}/${id}/private.key` with the share root for a truthy user name and "" otherwise |
| Addressing.PrivateKeyFileType | src/utilities/gaia-utils.ts:450-456 | with an empty root the type is the first segment of the key path |
| JsValues.ToLower | public/scripts/workers/gaia-worker.js:260 | lower-casing keeps the length and maps each character on its own |
| JsValues.ToLowerIdempotent | src/utilities/gaia-utils.ts:402 | lower-casing twice is lower-casing once |
| JsValues.IndexOf | src/utilities/gaia-utils.ts:264 | the first occurrence of the pattern, or -1 exactly when there is none |
| JsValues.LastIndexOfChar | src/utilities/gaia-utils.ts:262 | the last position holding the character, or -1 exactly when it does not occur |
| JsValues.IndexOfChar | src/utilities/gaia-utils.ts:270 | the first position holding the character, or -1 exactly when it does not occur |
| JsValues.ReplaceFirstSplit | src/utilities/gaia-utils.ts:264 | `replace` with a string pattern rewrites only the first occurrence and keeps the text around it |
| CacheStore.CacheDb.Put | public/scripts/workers/gaia-worker.js:307 | the record is stored under its id, replacing any earlier one; no other id changes |
| CacheStore.CacheDb.Delete | public/scripts/workers/gaia-worker.js:329 | the id is removed; deleting an absent id changes nothing |
| CacheStore.CacheDb.Clear | public/scripts/workers/gaia-worker.js:552-558 | dropping the database leaves no record |
| CacheStore.ScanCursor | public/scripts/workers/gaia-worker.js:253-268 | one cursor over a section adds exactly the records the share-name test admits |
| CacheStore.CollectScoped | public/scripts/workers/gaia-worker.js:249-270 | `existingCache` is the scope's id-to-time map, and `hasExisting` holds exactly when some record is in scope |
| CacheStore.SelfScopeExcludesShared | public/scripts/workers/gaia-worker.js:256-258 | a record with a share name is never collected in the principal's own scope |
| CacheStore.ShareScopeMatchesName | public/scripts/workers/gaia-worker.js:259-262 | in a share scope a record of a scanned section is collected exactly when its share name equals the user name ignoring case |
| SyncEngine.DeleteMissing | public/scripts/workers/gaia-worker.js:317-320 | the master index with every missing path deleted |
| SyncEngine.PruneOrphans | public/scripts/workers/gaia-worker.js:327-331 | exactly the collected ids that no master-index key produced are deleted |
| SyncEngine.FetchIndexFile | public/scripts/workers/gaia-worker.js:278-306 | the fate of one key (not read, failed, old format, or the record to put) as the classification gives it |
| SyncEngine.ApplyVisit | public/scripts/workers/gaia-worker.js:276-315 | one loop step: mark the id, append a failure to `missing`, or put the record and count it |
| SyncEngine.VisitKey | public/scripts/workers/gaia-worker.js:275-315 | the iteration for the key at a position is the step on that key's visit |
| SyncEngine.ProcessMasterIndex | public/scripts/workers/gaia-worker.js:274-316 | the loop's cache, `existing`, `missing` and `ret` are the fold of the steps over the keys in enumeration order |
| SyncEngine.FoldVisits | public/scripts/workers/gaia-worker.js:274 | the loop state after one more key is one more step |
| SyncEngine.SaveGaiaIndexesToCache | public/scripts/workers/gaia-worker.js:238-338 | the new cache, `[ret, hasExisting]` and the master index written back are those of the whole reconciliation |
| SyncProperties.ClassifyRequested | public/scripts/workers/gaia-worker.js:278-282 | a key is read exactly when its cached time is falsy, or its index time is truthy and later, and its path has a non-empty file id |
| SyncProperties.ClassifyStored | public/scripts/workers/gaia-worker.js:284-306 | a read key is put exactly when its metadata loads, has no mediaType and seals; the record has the scope's section, the metadata's time and the user name |
| SyncProperties.NullTimeFetchesOnlyUncached | public/scripts/workers/gaia-worker.js:280 | a null index time causes a read only when the cache holds no truthy time for the id |
| SyncProperties.FoldExisting | public/scripts/workers/gaia-worker.js:276-277 | every visited key marks its id in `existing`, failed keys included |
| SyncProperties.FoldFetched | public/scripts/workers/gaia-worker.js:280-288 | the files read are exactly the visited keys not skipped by the staleness test |
| SyncProperties.FoldMissing | public/scripts/workers/gaia-worker.js:312-315 | `missing` holds exactly the visited keys whose read or sealing failed |
| SyncProperties.FoldCount | public/scripts/workers/gaia-worker.js:307-308 | `ret` is the number of keys whose record was put |
| SyncProperties.FoldUntouched | public/scripts/workers/gaia-worker.js:307 | an id no stored key produces keeps its record, or its absence |
| SyncProperties.FoldStored | public/scripts/workers/gaia-worker.js:300-307 | a stored key's record is in the cache unless a later key with the same id is stored |
| SyncProperties.FoldNewFromStored | public/scripts/workers/gaia-worker.js:307 | every new or changed record comes from a stored key with that id |
| SyncProperties.FoldKeepsKeys | public/scripts/workers/gaia-worker.js:274-316 | the loop only puts: no record disappears during it |
| SyncProperties.VisitsAt | public/scripts/workers/gaia-worker.js:274 | the loop visits the keys of the master index in their enumeration order, one visit per key |
| SyncProperties.PlanFacts | public/scripts/workers/gaia-worker.js:274-277 | the run visits every key once, in order, under the id createIndexID gives it |
| SyncProperties.ReconcileHasExisting | public/scripts/workers/gaia-worker.js:248-268 | `hasExisting` holds exactly when the master index loads and some record is in scope |
| SyncProperties.ReconcileWithoutIndex | public/scripts/workers/gaia-worker.js:247-248 | without a master index nothing changes and `[0, false]` is returned |
| SyncProperties.ReconcileCount | public/scripts/workers/gaia-worker.js:308 | `ret` is the number of visited keys whose record was put |
| SyncProperties.MissingIsFailedFiles | public/scripts/workers/gaia-worker.js:312-317 | `missing` holds exactly the failed keys, and is non-empty exactly when some key failed |
| SyncProperties.ReconcileCache | public/scripts/workers/gaia-worker.js:317-331 | the cache afterwards is the loop's cache, pruned of orphans unless the self-heal write threw |
| SyncProperties.ReconcileMasterWrite | public/scripts/workers/gaia-worker.js:317-326 | the master index is written back exactly in the principal's own scope when some key failed, with exactly the failed keys deleted |
| SyncProperties.ReconcileDeletes | public/scripts/workers/gaia-worker.js:327-331 | a record disappears exactly when the prune runs, the scan collected it and no key of the index produces its id |
| SyncProperties.ReconcileUntouched | public/scripts/workers/gaia-worker.js:327-331 | a record no stored key produces is, if still there, unchanged |
| SyncProperties.ReconcileStored | public/scripts/workers/gaia-worker.js:300-307 | a stored key's record is in the cache under its createIndexID id unless a later key with the same id is stored |
| SyncIdempotence.DistinctIdsFromInjectiveAddress | public/scripts/workers/gaia-worker.js:83-91 | with an injective publicKeyToAddress and no '_' in the key or the paths, distinct keys get distinct cache ids |
| SyncIdempotence.ClassifyFollowsCache | public/scripts/workers/gaia-worker.js:279-280 | the decision for a key depends on the cache only through that key's collected time |
| SyncIdempotence.ClassifyFresh | public/scripts/workers/gaia-worker.js:280 | a key whose collected time is truthy and not older than the index time is not read |
| SyncIdempotence.StoredIsInScope | public/scripts/workers/gaia-worker.js:300-306 | a record the run stores is collected by the next scan of the same scope, with a truthy time not older than the index time |
| SyncIdempotence.KeyIdAfterFirstRun | public/scripts/workers/gaia-worker.js:274-331 | after a run, the id of each key holds that key's stored record, or what it held before |
| SyncIdempotence.SecondVisit | public/scripts/workers/gaia-worker.js:278-315 | in a second run a key stored by the first is not read again, and every other key has the same outcome as in the first run |
| SyncIdempotence.FoldWithoutStores | public/scripts/workers/gaia-worker.js:274-316 | a loop that stores nothing leaves the cache as it was |
| SyncIdempotence.FirstRun | public/scripts/workers/gaia-worker.js:274-331 | the first run leaves, for the id of every key, its stored record or what it held before |
| SyncIdempotence.SecondPlanStoresNothing | public/scripts/workers/gaia-worker.js:278-308 | with the master index and the index files unchanged, the second run puts no record |
| SyncIdempotence.SecondPlanFailsAgain | public/scripts/workers/gaia-worker.js:312-315 | with the master index unchanged, a failure of the first run recurs in the second |
| SyncIdempotence.NoOrphansLeft | public/scripts/workers/gaia-worker.js:327-331 | after a pruned run every record the scan collects belongs to some key of the index |
| SyncIdempotence.UnnamedIdPruned | public/scripts/workers/gaia-worker.js:327-331 | a collected record whose id no key has is gone after a pruned run |
| SyncIdempotence.NamedIdVisited | public/scripts/workers/gaia-worker.js:274-277 | every key of the index is visited with its id, whatever the cache holds |
| SyncIdempotence.OrphansGone | public/scripts/workers/gaia-worker.js:327-331 | after a pruned run, the next run's prune finds nothing to delete |
| SyncIdempotence.ReconcileTwice | public/scripts/workers/gaia-worker.js:238-338 | reconciling twice over an unchanged master index, with distinct cache ids and index files that agree with it: the second run returns count 0 and leaves the cache exactly as the first left it |
| SyncIdempotence.HealedEnvAgrees | public/scripts/workers/gaia-worker.js:317-325 | after the self-heal write only the master-index read changes: ids, scans and per-key outcomes are as before |
| SyncIdempotence.HealedVisit | public/scripts/workers/gaia-worker.js:317-320 | a key of the healed index is a key of the first run's index that did not fail, and the next run neither stores nor loses it |
| SyncIdempotence.OrphansOverHealedKeys | public/scripts/workers/gaia-worker.js:327-331 | over the healed keys, the orphans of a scan whose every id is visited are exactly the scanned ids of the failed keys |
| SyncIdempotence.HealedOrphans | public/scripts/workers/gaia-worker.js:317-331 | after the self-heal, the next run's prune deletes exactly the collected records of the keys that failed |
| SyncIdempotence.ReconcileAfterHeal | public/scripts/workers/gaia-worker.js:238-338 | the run after a successful self-heal reads the healed index, returns count 0, writes no master index, and leaves the first run's cache without the records of the failed keys |
| SyncIdempotence.DisagreeingFileStoredAgain | public/scripts/workers/gaia-worker.js:278-308 | an index file of an unscanned type, with a falsy time or a time older than the master index's, is read and put again by every rerun, which returns a count above 0 |
| Dicts.Set | src/utilities/gaia-utils.ts:131 | assigning a key gives it the value; a new key is enumerated last, an existing one keeps its place |
| Dicts.Remove | src/utilities/gaia-utils.ts:125 | `delete obj[k]` removes exactly that key |
| Dicts.RemoveAll | public/scripts/workers/gaia-worker.js:318-320 | deleting a set of keys removes exactly those keys and keeps the order of the rest |
| Dicts.Without | public/scripts/workers/gaia-worker.js:318-320 | the enumeration order without the deleted keys: exactly the others, in order, still without repeats |
| Dicts.RemoveAllThenRemove | public/scripts/workers/gaia-worker.js:318-320 | deleting keys one at a time is deleting them all at once |
| Dicts.RemoveAllTwice | public/scripts/workers/gaia-worker.js:318-320 | deleting in two rounds is deleting the union |
| Dicts.RemoveNothing | public/scripts/workers/gaia-worker.js:317 | deleting no key leaves the dictionary as it is |
| Dicts.RemoveAllAfterSet | src/utilities/gaia-utils.ts:807 | deleting a key afterwards undoes assigning it, whether or not it was there |
| MasterIndexUpdate.RunPass | src/utilities/gaia-utils.ts:118-158 | the loop over the file entries computes the index, `modified`, `privateLookup` and the throw of the per-entry rules, stopping at the first throw |
| MasterIndexUpdate.PassSnoc | src/utilities/gaia-utils.ts:120 | the pass over one more entry is one more step |
| MasterIndexUpdate.PassThrewStays | src/utilities/gaia-utils.ts:149-151 | once the pass threw, later entries change nothing |
| MasterIndexUpdate.WriteKeys | src/utilities/gaia-utils.ts:165-180 | one key write per `privateLookup` key, in order: a put of the sealed key for Share, a delete otherwise |
| MasterIndexUpdate.UpdateScope | src/utilities/gaia-utils.ts:93-209 | one scope's call attempts exactly the writes of its validation, read, pass, index write, key writes and sealed copy, and reports whether it fans out |
| MasterIndexUpdate.RunFanOut | src/utilities/gaia-utils.ts:182-188 | one nested call per user of the share index, awaited in order, their writes concatenated; no result once one of them does not end within the nesting bound |
| MasterIndexUpdate.FanOutCallsStep | src/utilities/gaia-utils.ts:185-187 | the loop over one more user awaits that user's call after the earlier ones |
| MasterIndexUpdate.FanOutCallsStops | src/utilities/gaia-utils.ts:185-187 | once a nested call does not end, the loop over the share index does not end |
| MasterIndexUpdate.CallStops | src/utilities/gaia-utils.ts:182-188 | a call that fans out does not end when its loop over the share index does not |
| MasterIndexUpdate.PostRequests | src/utilities/gaia-utils.ts:210-235 | the requests posted to the worker are those the operation calls for |
| MasterIndexUpdate.IndexFiles | src/utilities/gaia-utils.ts:232 | the index files of the entries, one per entry, in order |
| MasterIndexUpdate.UpdateMasterIndex | src/utilities/gaia-utils.ts:86-236 | the writes and the worker requests of a call are those of the whole update, nested fan-out at every depth included; no result when the nesting is deeper than its bound |
| MasterIndexUpdate.ShareEntries | src/utilities/gaia-utils.ts:246-251 | each file under its index path `type/id.index`, in order |
| MasterIndexUpdate.ShareFile | src/utilities/gaia-utils.ts:245-259 | one Share (or Unshare) call per user whose `share` is set, in order, without a worker |
| MasterIndexProperties.TruthyFilesMembers | src/utilities/gaia-utils.ts:124 | the paths a removal drops are exactly the entries' paths whose value is truthy |
| MasterIndexProperties.StepFacts | src/utilities/gaia-utils.ts:121-134 | one entry: removals drop a truthy key, Add and Share stamp it, Update stamps only a truthy key; `modified` is sticky; only Share can throw |
| MasterIndexProperties.RemovalRule | src/utilities/gaia-utils.ts:122-128 | Delete and Unshare drop exactly the entries' truthy paths, keep every other key with its value and place, modify the index exactly when they drop a key, and never throw |
| MasterIndexProperties.PassNotThrownBefore | src/utilities/gaia-utils.ts:149-151 | a pass that did not throw did not throw on any prefix |
| MasterIndexProperties.StampRule | src/utilities/gaia-utils.ts:129-134 | Add and Share set each entry's path to the time of the last entry naming it, keep every other key, and modify exactly when there is an entry |
| MasterIndexProperties.UpdateKeeps | src/utilities/gaia-utils.ts:130 | Update never adds a key, never reorders, never throws, and leaves falsy or unnamed keys as they are |
| MasterIndexProperties.UpdateModifies | src/utilities/gaia-utils.ts:130-133 | Update modifies the index exactly when some entry names a truthy key |
| MasterIndexProperties.UpdateStampsLast | src/utilities/gaia-utils.ts:130-131 | with stamped entries, Update leaves each named truthy key at the last entry's time |
| MasterIndexProperties.LastTimeStamped | src/utilities/gaia-utils.ts:131 | among stamped entries the last time of a named key is truthy |
| MasterIndexProperties.NullTimesSurvive | src/utilities/gaia-utils.ts:124 | a null (or zero) time is never deleted or overwritten by Delete, Unshare or Update |
| MasterIndexProperties.ShareKeyRule | src/utilities/gaia-utils.ts:139-153 | sharing throws exactly when some entry's own key cannot be read; otherwise every entry's key file in the share holds a sealed key |
| MasterIndexProperties.ShareThrows | src/utilities/gaia-utils.ts:141-152 | the Share pass throws exactly when some owner key is unreadable |
| MasterIndexProperties.ShareSeals | src/utilities/gaia-utils.ts:143-146 | a Share pass that did not throw schedules a sealed key for every entry and nothing else |
| MasterIndexProperties.ShareStep | src/utilities/gaia-utils.ts:139-152 | one Share entry throws exactly when its owner key is unreadable, and otherwise schedules its sealed copy |
| MasterIndexProperties.StickyModifiedSchedulesKey | src/utilities/gaia-utils.ts:135-156 | `modified` is not reset per entry: after one drop, a later entry whose path is absent still has its key file scheduled for deletion |
| MasterIndexProperties.UserScopeRefusesAdd | src/utilities/gaia-utils.ts:94-102 | a user-scoped Add ends at once and writes nothing; the worker still receives its cacheindexes request |
| MasterIndexProperties.SelfPassNeverThrows | src/utilities/gaia-utils.ts:135-138 | in the principal's own scope no key is read and the pass cannot throw |
| MasterIndexProperties.OnlySharePassThrows | src/utilities/gaia-utils.ts:139-153 | a pass for any operation but Share reads no key and cannot throw |
| MasterIndexProperties.SelfScopeWrites | src/utilities/gaia-utils.ts:159-189 | in the own scope the master index is written exactly when modified, and the call fans out exactly for a modifying Delete or Update whose write succeeded |
| MasterIndexProperties.UserScopeNeverFansOut | src/utilities/gaia-utils.ts:165-182 | a call for a share whose app public key is non-empty never fans out |
| MasterIndexProperties.EmptyShareKeyFansOut | src/utilities/gaia-utils.ts:165-188 | a call for a share whose app public key is empty takes the principal's branch: a modifying Delete or Update whose write succeeded fans out |
| MasterIndexProperties.BlankShareNameIsOwnScope | src/utilities/gaia-utils.ts:94-188 | the empty name in the share index is a falsy user name, so its call is the principal's own call, which fans out again |
| MasterIndexProperties.SelfChangeFansOut | src/utilities/gaia-utils.ts:182-188 | a modifying own Delete or Update is written back and then re-applied by one nested call per share user, in share-index order |
| MasterIndexProperties.OneLevelFanOut | src/utilities/gaia-utils.ts:185-187 | when no nested call fans out again, the loop writes exactly one level of share calls |
| MasterIndexProperties.UpdateEndsWithPublicShares | src/utilities/gaia-utils.ts:86-236 | when every share name and every share's app public key is non-empty, every update ends after one level of fan-out, with the requests after the writes |
| MasterIndexProperties.ReentrantShareNeverEnds | src/utilities/gaia-utils.ts:182-188 | a share user whose call fans out again never ends: its call re-enters the loop that calls it |
| MasterIndexProperties.ShareCallStopsFanOut | src/utilities/gaia-utils.ts:185-187 | a share user's call that does not end stops the loop over the share index |
| MasterIndexProperties.UpdateWithReentrantShareNeverEnds | src/utilities/gaia-utils.ts:130-188 | the principal's modifying Update whose entries all carry truthy times never ends when a share user fans out again, and posts no worker request |
| MasterIndexProperties.UpdateBlanksUnreadableShare | src/utilities/gaia-utils.ts:116 | an Update for a share whose internal index cannot be read starts from `{}` and, when the share's app public key is non-empty, overwrites the share's public master index with an empty index; otherwise it writes nothing |
| MasterIndexProperties.DeleteSkipsUnreadableShare | src/utilities/gaia-utils.ts:116-117 | a Delete for a share whose internal index cannot be read writes nothing |
| MasterIndexProperties.RequestsIgnoreOutcome | src/utilities/gaia-utils.ts:210-235 | the worker requests of an update that ends depend only on the operation and the entries, and there are none without a worker: one removecache per entry, one updatecache per entry, one cacheindexes with every path, nothing for shares |
| MasterIndexProperties.ShareSkipsUnselected | src/utilities/gaia-utils.ts:253-258 | users without the share flag receive no call |
| WorkerOps.ListedMasterIndex | public/scripts/workers/gaia-worker.js:26-33 | the rebuilt index holds exactly the listed names that start with `videos/` or `images/` and end with `.index`, each mapped to null |
| WorkerOps.ListedKeysInOrder | public/scripts/workers/gaia-worker.js:27-33 | its keys are those names in listing order |
| WorkerOps.CreateMasterIndex | public/scripts/workers/gaia-worker.js:25-49 | one put of the rebuilt index; when it throws, a delete and exactly one more put; the function throws exactly when the listing, the delete or the second put throws |
| WorkerOps.UpdateCachedIndex | public/scripts/workers/gaia-worker.js:192-224 | the returned value or throw, and the cache afterwards, are those of the update plan (owner key, self-scope id, shifted key lookup, read, parse, seal, put) |
| WorkerOps.RemoveCachedIndex | public/scripts/workers/gaia-worker.js:159-174 | with an owner key, deletes the self-scope id of the path and returns true; without one, changes nothing and returns false |
| WorkerOps.SingleEntryOpsUseSelfScopeId | public/scripts/workers/gaia-worker.js:168 | both single-entry operations address the id the self-scope reconciliation gives the path, never a share-scope id |
| WorkerOps.RemoveUndoesUpdate | public/scripts/workers/gaia-worker.js:159-224 | removal deletes the id an update writes, undoing the update for that record |
| WorkerOps.ShiftedKeyFileDiffers | public/scripts/workers/gaia-worker.js:205 | the shifted getPrivateKey call never reads the key file the reconciliation reads for the path |
| WorkerOps.UpdateAgreesWithReconcile | public/scripts/workers/gaia-worker.js:201-218 | when the shifted lookup finds the right key and the file is in the current format, an update stores exactly the record the reconciliation stores |
| WorkerOps.UpdateCachesOldFormat | public/scripts/workers/gaia-worker.js:207-218 | unlike the reconciliation, an update caches an old-format index file, without a share name |
| WorkerOps.AddIndexesToCache | public/scripts/workers/gaia-worker.js:226-236 | the completion and the cache afterwards are those of the batch: false without an app key, else one update per file in order, ended by the first throw |
| WorkerOps.AddAllThrowsIff | public/scripts/workers/gaia-worker.js:229-233 | the batch throws exactly when one of its updates throws, and otherwise returns true |
| WorkerOps.AddAllUntouched | public/scripts/workers/gaia-worker.js:229-233 | the batch touches only the ids its updates write |
| WorkerOps.LostFilesMembers | public/scripts/workers/gaia-worker.js:394-411 | a path is deleted exactly when some entry names it whose file is gone and whose group value is truthy |
| WorkerOps.PruneStep | public/scripts/workers/gaia-worker.js:395-410 | one iteration deletes the entry's path exactly when the entry is lost and the path is still there |
| WorkerOps.LostFilesEmpty | public/scripts/workers/gaia-worker.js:412 | something is deleted exactly when some entry is lost |
| WorkerOps.ValidateGroupEntries | public/scripts/workers/gaia-worker.js:389-425 | the group index is written exactly when the group id is truthy and some listed entry is lost, and then it is the read index without exactly the lost paths |
| WorkerProtocol.Decode | public/scripts/workers/gaia-worker.js:431-576 | the switch selects the command its `message` names, and falls to the default case exactly for an unknown name |
| WorkerProtocol.SuccessTextNamesCommand | public/scripts/workers/gaia-worker.js:427-580 | a reply with result true carries the complete text of the command that was asked for |
| WorkerProtocol.NeverReady | public/scripts/workers/gaia-worker.js:427-585 | no reply to a request is the `ready` post |
| WorkerProtocol.UnknownRefused | public/scripts/workers/gaia-worker.js:571-576 | an unknown command gets `unknown` with result false and changes nothing |
| WorkerProtocol.SilentBeforeSession | public/scripts/workers/gaia-worker.js:474-551 | before the first load, the cache commands throw on the unbound `userSession` and post nothing |
| WorkerProtocol.SignedOutFails | public/scripts/workers/gaia-worker.js:474-551 | with a signed-out session each cache command posts its own failure text and changes nothing |
| WorkerProtocol.CacheIndexesCompletesIff | public/scripts/workers/gaia-worker.js:474-499 | `cacheindexes` completes exactly when signed in with a non-empty list whose cache fill returns true |
| WorkerProtocol.RemoveCacheCompletesIff | public/scripts/workers/gaia-worker.js:500-525 | `removecache` completes exactly when signed in with a path whose id and owner key resolve, and then drops that id alone; otherwise the cache is unchanged |
| WorkerProtocol.UpdateCacheCompletesIff | public/scripts/workers/gaia-worker.js:526-551 | `updatecache` completes exactly when the update stores a record, and otherwise the cache is unchanged |
| WorkerProtocol.HousekeepingCompletes | public/scripts/workers/gaia-worker.js:552-570 | `deletedb` and `validate-group-entries` always complete once bound, and `deletedb` empties the cache |
| WorkerProtocol.LoadCompletesIff | public/scripts/workers/gaia-worker.js:432-473 | `load` reports counts exactly when the database opens, a signed-in session is in place and the master index is readable or recreated; with an app private key the counts and the cache are those of the own-scope reconciliation, and without one they are 0 and false with the cache unchanged |
| WorkerProtocol.LoadKeepsSession | public/scripts/workers/gaia-worker.js:340-353 | a bound, signed-in session is not rebuilt by a later `load` |
| WorkerProtocol.BindingsStay | public/scripts/workers/gaia-worker.js:432-455 | `db` and `userSession`, once bound, stay bound, and `userSession` is bound only after `db` |
| WorkerProtocol.GaiaWorker.constructor | public/scripts/workers/gaia-worker.js:582-585 | at script start nothing is bound and `ready` is the only post |
| WorkerProtocol.GaiaWorker.Handle | public/scripts/workers/gaia-worker.js:427-580 | one request posts the switch's reply if any, and updates the globals, the cache and the remote writes as the switch says, keeping `ready` first and only |
| WorkerProtocol.GaiaWorker.Dispatch | public/scripts/workers/gaia-worker.js:431-576 | each case does what the switch says for its command |
| WorkerProtocol.GaiaWorker.HandleLoad | public/scripts/workers/gaia-worker.js:432-473 | the `load` case binds `db` and the session as needed and then does the rest of `load`, the missing app key included |
| WorkerProtocol.GaiaWorker.LoadWithSession | public/scripts/workers/gaia-worker.js:436-471 | the signed-in check, the master index recreation and the own-scope fill, with their counts; without an app private key the fill throws at once and reports 0 and false |
| WorkerProtocol.GaiaWorker.RecreateMaster | public/scripts/workers/gaia-worker.js:25-49 | createMasterIndex's writes are recorded in order, and a throw is reported |
| WorkerProtocol.GaiaWorker.HandleCacheIndexes | public/scripts/workers/gaia-worker.js:474-499 | the `cacheindexes` case |
| WorkerProtocol.GaiaWorker.HandleRemoveCache | public/scripts/workers/gaia-worker.js:500-525 | the `removecache` case |
| WorkerProtocol.GaiaWorker.HandleUpdateCache | public/scripts/workers/gaia-worker.js:526-551 | the `updatecache` case |
| WorkerProtocol.GaiaWorker.HandleDeleteDb | public/scripts/workers/gaia-worker.js:552-563 | the `deletedb` case |
| WorkerProtocol.GaiaWorker.HandleValidate | public/scripts/workers/gaia-worker.js:564-570 | the `validate-group-entries` case, which records the group write it attempts |
| CacheQueries.EarlierIsAbove | src/utilities/gaia-utils.ts:391 | a "prev" cursor meets positions in strictly descending order |
| CacheQueries.ShareLookup | src/utilities/gaia-utils.ts:399-404 | the lookup holds the lower-cased share names, and only for a non-empty array |
| CacheQueries.EmptyShareNamesMatchNothing | src/utilities/gaia-utils.ts:400-414 | an empty share-name array is truthy but fills no lookup, so no record matches |
| CacheQueries.UpperCaseShareNameNeverMatches | src/utilities/gaia-utils.ts:402-412 | the lookup is probed with the stored name as is, so a stored name with an upper-case letter never matches |
| CacheQueries.Matches | src/utilities/gaia-utils.ts:405-418 | the matching records of a range of cursor positions, no more than the range holds |
| CacheQueries.MatchesMembers | src/utilities/gaia-utils.ts:405-418 | an id is among the matches of a range exactly when it sits in the range and its record meets the criteria |
| CacheQueries.MatchesDescending | src/utilities/gaia-utils.ts:391 | the matches keep the cursor's strictly descending order |
| CacheQueries.Seek | src/utilities/gaia-utils.ts:392-394 | continuePrimaryKey lands on the first later position at or below the given key |
| CacheQueries.FindMatch | src/utilities/gaia-utils.ts:430-433 | the inner loop stops at the next matching position, or at the end, skipping only non-matching ones |
| CacheQueries.FinishPage | src/utilities/gaia-utils.ts:429-438 | after a full page, the continuation is the next match's key and primary key, or none |
| CacheQueries.Scan | src/utilities/gaia-utils.ts:419-442 | the cursor loop from a position yields the page of the matches it meets |
| CacheQueries.GetCacheEntries | src/utilities/gaia-utils.ts:382-448 | the page of a query, with its start and continuation, as the cursor walk defines it |
| CacheQueries.PageContents | src/utilities/gaia-utils.ts:419-447 | a page holds at most max (at least one) entries, each a matching record with its own fields, in strictly descending order; it carries a continuation exactly when a further match exists, and that is the next match |
| CacheQueries.FullScanListsAllMatches | src/utilities/gaia-utils.ts:419-442 | without a page size or continuation the query lists exactly the matching indexed records |
| CacheQueries.ContinueAtFinds | src/utilities/gaia-utils.ts:393 | continuePrimaryKey to a record's own position lands on that record |
| CacheQueries.ContinuationResumes | src/utilities/gaia-utils.ts:392-394 | passing a page's continuation back resumes right after it, with no match skipped or repeated, whenever its key and id are truthy |
| CacheQueries.ZeroKeyRestarts | src/utilities/gaia-utils.ts:392 | a continuation whose key is 0 is ignored and the next query starts over |
| CacheQueries.LookupName | src/utilities/gaia-utils.ts:307-310 | the principal's own user name is looked up as self scope and every other one as is |
| CacheQueries.SplitGroupMissing | src/utilities/gaia-utils.ts:304-324 | an entry is reported missing exactly when a key of the type has no cached record under its id |
| CacheQueries.SplitGroupFound | src/utilities/gaia-utils.ts:304-324 | a cached record is returned exactly when a key of the type looks it up |
| CacheQueries.MissingNeverOwnName | src/utilities/gaia-utils.ts:307-321 | a missing entry carries the group id and a path of the type, and never the principal's own user name |
| CacheQueries.CollectGroup | src/utilities/gaia-utils.ts:304-324 | the loop over the group's keys splits the entries of the type into found and missing, in key order |
| CacheQueries.Insert | src/utilities/gaia-utils.ts:332-348 | one insertion step keeps every element and adds the new one |
| CacheQueries.SortByTimePermutes | src/utilities/gaia-utils.ts:332-348 | the sort is a permutation of the found records |
| CacheQueries.InsertAscending | src/utilities/gaia-utils.ts:339-344 | inserting a timed record into an ascending run keeps it ascending |
| CacheQueries.SortByTimeAscending | src/utilities/gaia-utils.ts:332-348 | when every record has a time the sort orders them by ascending lastUpdated |
| CacheQueries.GroupPageContents | src/utilities/gaia-utils.ts:354-373 | a page is the run of at most max (at least one) entries from its start, and the next offset is set exactly when entries remain, pointing at the first of them |
| CacheQueries.PageGroup | src/utilities/gaia-utils.ts:363-373 | the paging loop yields the page and the next offset of its start |
| CacheQueries.GetCacheEntriesFromGroup | src/utilities/gaia-utils.ts:287-380 | the page, the collected entries and the posted request are those of the query |
| CacheQueries.GroupPostsIff | src/utilities/gaia-utils.ts:325-331 | validate-group-entries is posted exactly when the entries are collected afresh, a worker exists and some key of the type has no cached record |
| CacheQueries.GroupContinuationResumes | src/utilities/gaia-utils.ts:351-362 | passing a result back continues right after its page from the same entries, without reading the group or posting again |
| Editors.GroupKeys | src/utilities/gaia-utils.ts:786 | the group keys of the files are exactly their `type/id.index` paths |
| Editors.AddFilesLookup | src/utilities/gaia-utils.ts:784-788 | after adding, the group holds the files' keys besides its own; each added key maps to the owner of the last file with that key; every other key keeps its value |
| Editors.RemoveUndoesAdd | src/utilities/gaia-utils.ts:801-811 | removing the same files after adding them leaves what removing alone leaves |
| Editors.AddFilesLoop | src/utilities/gaia-utils.ts:784-788 | the inner loop maps every file's key to its owner, in order |
| Editors.AddToGroup | src/utilities/gaia-utils.ts:778-799 | nothing is saved without group ids or files; otherwise each readable group is saved with every file added |
| Editors.AddToGroupSavesEach | src/utilities/gaia-utils.ts:781-792 | the saves are exactly the readable groups among the ids, each holding every file |
| Editors.RemoveFromGroup | src/utilities/gaia-utils.ts:801-811 | the group is saved exactly when it reads back and there are files, and then without exactly the files' keys |
| Editors.LowerNames | src/utilities/gaia-utils.ts:631-634 | the share-index keys of the names are exactly their lower-cased forms |
| Editors.UpdateShares | src/utilities/gaia-utils.ts:625-643 | the share index written is the one read with the names deleted or added by lower-cased key, written even when nothing changed |
| Editors.AddSharesLookup | src/utilities/gaia-utils.ts:634 | adding keys every name by its lower-cased form, holding a name that lower-cases to the key; other keys are untouched |
| Editors.DeleteUndoesAddShares | src/utilities/gaia-utils.ts:630-635 | deleting names after adding them leaves what deleting alone leaves, ignoring case |
| Editors.UpdateGroupWrites | src/utilities/gaia-utils.ts:645-672 | the group's own index file is deleted (also on an update), then the collection is written with the group deleted or set |
| Editors.DeleteUndoesSetGroup | src/utilities/gaia-utils.ts:647-654 | deleting a group after setting it leaves what deleting alone leaves |
| Editors.TruthyValues | src/utilities/gaia-utils.ts:579-583 | the kept values are non-empty, and every truthy value of the selection is kept |
| Editors.GetShareNames | src/utilities/gaia-utils.ts:575-589 | the truthy values of a selection, in order, or undefined when there are none; never an empty array |
| FFmpegFs.Names | src/utilities/ffmpeg-utils.ts:48 | the listing is the entries' names, in directory order |
| FFmpegFs.Drop | src/utilities/ffmpeg-utils.ts:52 | removing names keeps exactly the entries with other names |
| FFmpegFs.DropTwice | src/utilities/ffmpeg-utils.ts:50-54 | removing one set of names and then another removes their union |
| FFmpegFs.ClearedMembers | src/utilities/ffmpeg-utils.ts:45-57 | clearing keeps exactly the system entries (`.`, `..`, `tmp`, `home`, `dev`, `proc`) |
| FFmpegFs.ClearedIdempotent | src/utilities/ffmpeg-utils.ts:45-57 | clearing twice clears nothing more |
| FFmpegFs.DropAllNonSystem | src/utilities/ffmpeg-utils.ts:50-54 | removing every non-system name, and only those, is clearing |
| FFmpegFs.ClearByNames | src/utilities/ffmpeg-utils.ts:48-54 | removing the non-system names of the listing one by one is clearing |
| FFmpegFs.Written | src/utilities/ffmpeg-utils.ts:63-69 | writeFile puts the new contents under the name and keeps every entry of another name |
| FFmpegFs.OutputsMembers | src/utilities/ffmpeg-utils.ts:72-90 | the output list holds exactly the entries that are not system, key or input files |
| FFmpegFs.OutputsConcat | src/utilities/ffmpeg-utils.ts:74-88 | the output list follows the listing order |
| FFmpegFs.StagedFilesNotOutputs | src/utilities/ffmpeg-utils.ts:80-84 | the input file, `key.info` and `key.bin` never come back as output |
| FFmpegFs.Instance.Ls | src/utilities/ffmpeg-utils.ts:74 | `ls("/")` lists the root entries' names in order |
| FFmpegFs.Instance.Remove | src/utilities/ffmpeg-utils.ts:52 | `remove` drops exactly the named entry |
| FFmpegFs.Instance.WriteFile | src/utilities/ffmpeg-utils.ts:63 | `writeFile` stores the contents under the name |
| FFmpegFs.Instance.Read | src/utilities/ffmpeg-utils.ts:85 | `read` returns the contents stored under the name |
| FFmpegFs.Instance.Clear | src/utilities/ffmpeg-utils.ts:45-57 | clearFFMpegFileSystem leaves exactly the system entries, in order |
| FFmpegFs.Instance.Run | src/utilities/ffmpeg-utils.ts:70 | the program replaces the directory with what it leaves behind |
| FFmpeg.Args | src/utilities/ffmpeg-utils.ts:182-210 | the argument vector is empty exactly for an HLS job without dimensions or a preview job without an output name; otherwise it starts `-y -i <file>`, a dimension probe has nothing more, a preview ends with its `-s` size and output, an HLS job scales to the height and ends with the variant playlist name |
| FFmpeg.RunWasm | src/utilities/ffmpeg-utils.ts:59-92 | the program runs on the cleared directory with the job's files written, and the result is the collected outputs except for a dimension probe |
| FFmpeg.CollectOutputs | src/utilities/ffmpeg-utils.ts:72-90 | the collecting loop returns every output entry, in listing order |
| FFmpeg.RunFFmpeg | src/utilities/ffmpeg-utils.ts:212-232 | an incomplete job is refused with the invalid-arguments message and nothing runs; a complete one runs on its argument vector and returns its result with no error |
| FFmpeg.BandwidthMonotone | src/utilities/ffmpeg-utils.ts:249-258 | the bandwidth ladder only grows with the height and takes one of its four rungs |
| FFmpeg.RungText | src/utilities/ffmpeg-utils.ts:261-262 | a variant renders as the EXT-X-STREAM-INF template filled with its bandwidth, size and name |
| FFmpeg.Rung720 | src/utilities/ffmpeg-utils.ts:239-240 | the first literal variant of the default playlist is the rendering of 1280x720 at the ladder's bandwidth |
| FFmpeg.Rung240 | src/utilities/ffmpeg-utils.ts:241-242 | the second literal variant is the rendering of 426x240 at the ladder's bandwidth |
| FFmpeg.Rung360 | src/utilities/ffmpeg-utils.ts:243-244 | the third literal variant is the rendering of 640x360 at the ladder's bandwidth |
| FFmpeg.Rung480 | src/utilities/ffmpeg-utils.ts:245-246 | the fourth literal variant is the rendering of 852x480 at the ladder's bandwidth |
| FFmpeg.PlaylistStartsWithHeader | src/utilities/ffmpeg-utils.ts:234-266 | every generated playlist starts with `#EXTM3U` |
| FFmpeg.SingleVariantIsHlsOutput | src/utilities/ffmpeg-utils.ts:186-196 | with known dimensions the master playlist has one variant at the ladder's bandwidth whose URI is the playlist the HLS job writes |
| FFmpeg.SingleVariantPlaylist | src/utilities/ffmpeg-utils.ts:259-262 | with known dimensions the playlist is the header, the variant's tag and its URI line |
| FFmpeg.NameFromImageFile | src/utilities/ffmpeg-utils.ts:268-276 | the result is the name cut before its last `.`, or the whole name when it has none |
| FFmpeg.NameFromExtended | src/utilities/ffmpeg-utils.ts:268-276 | dropping the extension of `base.ext` gives back `base` |
| FFmpeg.PreviewFileName | src/utilities/ffmpeg-utils.ts:277-279 | the preview name is the name without extension followed by `_preview.jpg` |
| FFmpeg.PreviewEntry | src/utilities/ffmpeg-utils.ts:401-404 | the kept preview always ends in `_preview.jpg`, keeps its data, and is renamed exactly when it lacked the suffix |
| FFmpeg.Hex | src/utilities/ffmpeg-utils.ts:344 | hex text has two characters per byte |
| FFmpeg.HexInjective | src/utilities/ffmpeg-utils.ts:344 | different IVs never print the same hex text |
| FFmpeg.InjectKeyPlacement | src/utilities/ffmpeg-utils.ts:431 | without a media-sequence tag the playlist is unchanged; otherwise the key line follows the first tag, the tag stays first, and removing the line gives back the playlist |
| FFmpeg.InsertAfterFirst | src/utilities/ffmpeg-utils.ts:431 | inserting after the first occurrence of a text keeps that occurrence first and can be undone |
| FFmpeg.PackagedAll | src/utilities/ffmpeg-utils.ts:427-446 | every output is packaged, one for one and in order |
| FFmpeg.Package | src/utilities/ffmpeg-utils.ts:427-450 | the packaging loop yields the preview, the packaged outputs and `key.bin` |
| FFmpeg.ManifestOrder | src/utilities/ffmpeg-utils.ts:405-452 | the manifest is the preview's name, each output's name with playlists as `master.m3u8`, then `key.bin` |
| FFmpeg.PackagedName | src/utilities/ffmpeg-utils.ts:428-444 | a packaged output keeps its name, except that a playlist becomes `master.m3u8` |
| FFmpeg.EncryptVideo | src/utilities/ffmpeg-utils.ts:281-476 | without a preview name it fails and runs nothing; a preview run with no output fails with its message; a successful preview with an unknown or zero size throws UnknownSize; with a known size it succeeds exactly when the HLS run has output, and otherwise fails with NoHlsFiles; a throw means the size was unknown, and a success had a known size; every failure has a message; a success ships the first preview output (renamed with the preview suffix when it lacks it), then the packaged HLS outputs in order, then the key, with the id hashed from the preview name, the preview path under `videos/<id>/`, the manifest naming every file and the video media type; the directory ends as the last run left it |

## Behaviour as written

The model follows the code wherever the code and the system's written design disagree.

- Before the first `load`, the worker has not bound `db` or `userSession`. A bare reference
  to either throws a ReferenceError outside every `try`, so no reply is posted. This
  applies to the three cache commands, `deletedb`, and `validate-group-entries` when it has
  work (`WorkerProtocol.SilentBeforeSession`). The design says these commands always reply.
- `load` reconciles only the principal's own scope before it posts `loadcomplete`. The
  per-share reconciliations it starts are not awaited.
- `getCacheEntries` checks the page size only after it adds a record, so `max <= 0` still
  returns one entry (`CacheQueries.PageContents`).
- A continuation whose `lastUpdated` key is `0` is falsy, so the next query starts over
  (`CacheQueries.ZeroKeyRestarts`).
- The share lookup of `getCacheEntries` holds lower-cased names but is probed with the
  stored share name as it is. A stored name with an upper-case letter therefore never
  matches (`CacheQueries.UpperCaseShareNameNeverMatches`).
- An empty `shareNames` array is truthy but fills no lookup, so it matches nothing
  (apart from the prototype names below).
- `getShareNames` never returns an empty array: it returns undefined instead.
- `updateMasterIndex` decides whether a call is a share's by the truthiness of the share's
  published app public key. A share-index user whose key is the empty string, or the empty
  name itself (a falsy user name, so the principal's own scope), takes the principal's
  branch again: its modifying Update, whose entries all carry a truthy time, fans out over
  the share index once more, which calls it again, so the update never ends and posts
  nothing to the worker
  (`MasterIndexProperties.EmptyShareKeyFansOut`, `MasterIndexProperties.BlankShareNameIsOwnScope`,
  `MasterIndexProperties.UpdateWithReentrantShareNeverEnds`). With non-empty names and keys
  the update ends after one level (`MasterIndexProperties.UpdateEndsWithPublicShares`).
- `saveGaiaIndexesToCache` derives the owner key from the app private key before anything
  else. A session without one throws there, the catch-all swallows it, and `load` replies
  `loadcomplete` with 0 files and nothing existing, leaving the cache as it was
  (`WorkerProtocol.LoadCompletesIff`).
- `updateGroup` deletes the group's index file on an update as well as on a delete.
- `modified` in `updateMasterIndex` is never reset per entry. After one entry changes the
  index, every later entry has its key file scheduled too
  (`MasterIndexProperties.StickyModifiedSchedulesKey`).
- An Update for a share whose internal index cannot be read overwrites that share's public
  master index with `{}` (`MasterIndexProperties.UpdateBlanksUnreadableShare`).
- `updateCachedIndex` calls `getPrivateKey` with its arguments shifted by one. The key it
  reads is never the one the reconciliation reads (`WorkerOps.ShiftedKeyFileDiffers`).
  Unlike the reconciliation, it also caches an old-format index file.
- A missing path is marked in `existing` before its read fails. Its cache record therefore
  survives that run's prune. It is deleted by the prune of the next run, which reads the
  healed master index (`SyncIdempotence.ReconcileAfterHeal`).
- An index file that disagrees with the master index is fetched and put again on every run.
  This happens when its type is not one of the scanned resource types, when its
  `lastUpdatedUTC` is falsy, or when its time is older than the master index's. For example,
  a master index `{"videos/a.index": 100}` whose file records time 50 gives a count of 1 on
  every run (`SyncIdempotence.DisagreeingFileStoredAgain`).

## Left out

- Remote-store calls (`getFile`, `putFile`, `deleteFile`, `listFiles`), `lookupProfile`,
  `getPublicKey`, `encryptContent`/`decryptContent`, `makeECPrivateKey` and `getEntropy`:
  network I/O and cryptography. They are oracle parameters. A write is recorded as an
  effect, and later reads of the same run do not see it.
- JSON encoding: documents are modelled as the maps they encode, and a parse that throws
  is a `None` read.
- `initializeDatabase`: the upgrade and blocked callbacks set a flag that the worker never
  reads. Opening the database is the `World.dbOpens` outcome. The closed handle kept after
  `deletedb` is not modelled.
- The un-awaited per-share reconciliations in `load`
  (`public/scripts/workers/gaia-worker.js:447-450`) and the globals `existing`, `missing`
  and `existingCache` that they share: this is concurrency. One sequential run per call is
  modelled, and `getShares` is not.
- `postMessage` delivery and the ordering of concurrent messages: the worker handles one
  request at a time.
- IndexedDB transactions, versions and the cursor API: the store is a map, and a cursor
  is a sequence of ids with a position in it. NaN timestamps are not modelled.
- SyncEngine.SaveGaiaIndexesToCache: `db.put` is total, so a put that fails inside the
  per-key `try` is not modelled. The `latestUpdated` value the function computes is never
  used, and is left out.
- CacheQueries.SortByTime: `Array.prototype.sort` is modelled on values, as a stable
  insertion sort, not in place. The order V8 gives for the comparator's inconsistent
  answers is not modelled. A stored `lastUpdated` of `null` and a missing one are both
  `None`, and the comparator treats `None` as undefined: every comparison is false. A
  stored `null`, which JavaScript compares as `0` and so sorts before every positive time,
  is not distinguished.
- CacheQueries.GetCacheEntriesFromGroup: the order of its sorted records inherits the
  `null`/undefined conflation of CacheQueries.SortByTime. A record whose `lastUpdated` is
  `null` is not placed before the records with a time.
- CacheQueries.SortByTimeAscending: ascending order is proved only when every record has a
  time. The comparator is inconsistent when a time is missing.
- CacheQueries.ShareLookup: the lookup is a plain object, so a stored share name that is a
  member inherited from `Object.prototype` (`constructor`, `toString`, ...) finds a truthy
  value and matches whenever `shareNames` is truthy. The model's lookup is the set of
  lower-cased names and holds no inherited members; CacheQueries.EmptyShareNamesMatchNothing
  and the other share-matching lemmas therefore hold only for share names that are not such
  members.
- JsValues.ToLower: lower-casing covers ASCII letters only. There is no Unicode case
  mapping.
- `getSelectedShares`, `saveSelectedShares`, `getSelectedGroup`, `getGroups` and
  `getGroupIndex`: thin read/write wrappers with catch-all defaults. Their results are
  oracle reads.
- The `AppConfig` and `location.origin` fields: the app's public-key lookup is an oracle.
- `runFFMpegWorker`'s polling loop, `canRunWebAssembly` and `localStorage`: browser I/O.
  Only the WebAssembly path of `runFFMeg` is modelled.
- FFmpeg.EncryptVideo: the dimension probe's regular-expression log parsing and the
  `getImageSize`/`Math.round` scaling (floating point) are left out. The scaled size is a
  parameter, and so are `createHashAddress` and the `VideosType` constant.
- FFmpegFs.Tool: the program receives the argument vector as a list. The source passes
  `args.join(' ')`, a single string that ffmpeg splits again at spaces, so an argument
  holding a space (a file name with a space, say) is not kept whole there; the model keeps
  every argument whole.
- MasterIndexUpdate.Call: the depth of nested `updateMasterIndex` calls is bounded by a
  fuel parameter, and a call nested deeper than the fuel has no result (`None`). The
  nested calls read the store as it was at the start, because writes are effects: a
  re-entrant Delete, whose repeat in the source finds the path already gone and stops one
  level down, is modelled as never ending too. So is a re-entrant Update whose entries
  carry a falsy time (undefined, null or 0): the source writes that key back without a
  truthy value (`JSON.stringify` drops an undefined one), so its repeat finds nothing to
  re-stamp and stops one level down, after which the worker requests are posted.
  `MasterIndexProperties.UpdateWithReentrantShareNeverEnds` is stated only for entries
  with truthy times, where the source does not end either.
- `encryptSegment` (AES-128-CBC) is an uninterpreted function in `FFmpeg.Keys`. So are the
  UTF-8 conversions of the playlist rewrite.
- FFmpeg.M3u8Data: the playlist is modelled as text. Its `TextEncoder` bytes are not
  modelled.
- The `-hls_key_info_file` argument is commented out in the source and is not part of the
  HLS argument vector.
- `updateProgress` messages and logging: output only.
