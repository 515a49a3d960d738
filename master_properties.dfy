/**
 * What updateMasterIndex does to an index and to the store: the mutation rule of each
 * operation, the keys null times protect, when the index is written, the fan-out, the
 * key copies of a share, and the requests the worker receives whatever happened.
 */
module MasterIndexProperties {
  import opened Wrappers
  import opened JsValues
  import opened Dicts
  import opened Indexes
  import opened Addressing
  import opened Messages
  import opened MasterIndexUpdate

  // ---- the pass over the entries ----

  /** The entries' paths whose value in `d` is truthy. */
  function TruthyFiles(d: MasterIndex, entries: seq<FileEntry>): set<string>
  {
    if entries == [] then {}
    else
      var f := entries[|entries| - 1].indexFile;
      TruthyFiles(d, entries[..|entries| - 1]) + (if TruthyNum(Get(d, f)) then {f} else {})
  }

  lemma {:induction false} TruthyFilesMembers(d: MasterIndex, entries: seq<FileEntry>, k: string)
    ensures k in TruthyFiles(d, entries) <==> k in IndexFiles(entries) && TruthyNum(Get(d, k))
  {
    if entries != [] {
      TruthyFilesMembers(d, entries[..|entries| - 1], k);
    }
  }

  /** The time the last entry naming `k` carries. */
  function LastTime(entries: seq<FileEntry>, k: string): Option<int>
  {
    if entries == [] then None
    else if entries[|entries| - 1].indexFile == k then entries[|entries| - 1].meta.lastUpdatedUTC
    else LastTime(entries[..|entries| - 1], k)
  }

  lemma {:induction false} TruthyFilesTruthy(d: MasterIndex, entries: seq<FileEntry>)
    ensures forall k :: k in TruthyFiles(d, entries) ==> TruthyNum(Get(d, k))
  {
    if entries != [] {
      TruthyFilesTruthy(d, entries[..|entries| - 1]);
    }
  }

  /** The index, flag and throw of one step, apart from the key table. */
  lemma StepFacts(env: IndexEnv, op: FileOperation, root: string, pk: string, publicFile: bool,
                  st: PassState, e: FileEntry)
    requires !st.threw
    ensures var st' := PassStep(env, op, root, pk, publicFile, st, e);
      var f := e.indexFile;
      var hit := if Removes(op) then TruthyNum(Get(st.index, f)) else op != Update || TruthyNum(Get(st.index, f));
      st'.index == (if !hit then st.index else if Removes(op) then Remove(st.index, f)
                    else Set(st.index, f, e.meta.lastUpdatedUTC)) &&
      st'.modified == (st.modified || hit) &&
      (op != Share ==> !st'.threw)
  {
  }

  lemma RemovalStep(d: MasterIndex, before: set<string>, cur: MasterIndex, f: string)
    requires cur == RemoveAll(d, before)
    requires forall k :: k in before ==> TruthyNum(Get(d, k))
    ensures TruthyNum(Get(cur, f)) <==> TruthyNum(Get(d, f)) && f !in before
    ensures (if TruthyNum(Get(cur, f)) then Remove(cur, f) else cur)
         == RemoveAll(d, before + (if TruthyNum(Get(d, f)) then {f} else {}))
  {
    if f in cur.vals {
      assert Get(cur, f) == Get(d, f);
      if TruthyNum(Get(d, f)) {
        RemoveAllThenRemove(d, before, f);
      } else {
        assert before + {} == before;
      }
    } else {
      assert Get(cur, f) == None;
      if TruthyNum(Get(d, f)) {
        assert f in before;
        assert before + {f} == before;
      } else {
        assert before + {} == before;
      }
    }
  }

  /**
   * Delete and Unshare drop exactly the entries' paths whose value is truthy, keep every
   * other key with its value and place, modify the index exactly when they drop a key,
   * and never throw.
   */
  lemma {:induction false} RemovalRule(env: IndexEnv, op: FileOperation, root: string, pk: string, publicFile: bool,
                                       d: MasterIndex, entries: seq<FileEntry>)
    requires Removes(op)
    ensures var st := Pass(env, op, root, pk, publicFile, d, entries);
      !st.threw && st.index == RemoveAll(d, TruthyFiles(d, entries)) &&
      (st.modified <==> TruthyFiles(d, entries) != {})
  {
    if entries != [] {
      var init := entries[..|entries| - 1];
      var e := entries[|entries| - 1];
      RemovalRule(env, op, root, pk, publicFile, d, init);
      var prev := Pass(env, op, root, pk, publicFile, d, init);
      StepFacts(env, op, root, pk, publicFile, prev, e);
      TruthyFilesTruthy(d, init);
      RemovalStep(d, TruthyFiles(d, init), prev.index, e.indexFile);
    } else {
      RemoveNothing(d);
    }
  }

  /** Once a pass throws it stays thrown; a pass that did not throw did not throw on a prefix. */
  lemma PassNotThrownBefore(env: IndexEnv, op: FileOperation, root: string, pk: string, publicFile: bool,
                            d: MasterIndex, entries: seq<FileEntry>)
    requires entries != []
    requires !Pass(env, op, root, pk, publicFile, d, entries).threw
    ensures !Pass(env, op, root, pk, publicFile, d, entries[..|entries| - 1]).threw
  {
  }

  /**
   * Add and Share set each entry's path to the time of the last entry naming it, keep
   * every other key with its value, and modify the index exactly when there is an entry.
   */
  lemma {:induction false} StampRule(env: IndexEnv, op: FileOperation, root: string, pk: string, publicFile: bool,
                                     d: MasterIndex, entries: seq<FileEntry>)
    requires op == Add || op == Share
    requires !Pass(env, op, root, pk, publicFile, d, entries).threw
    ensures var st := Pass(env, op, root, pk, publicFile, d, entries);
      (forall k :: k in st.index.vals <==> k in d.vals || k in IndexFiles(entries)) &&
      (forall k :: k in IndexFiles(entries) ==> st.index.vals[k] == LastTime(entries, k)) &&
      (forall k :: k in d.vals && k !in IndexFiles(entries) ==> st.index.vals[k] == d.vals[k]) &&
      (st.modified <==> |entries| > 0)
  {
    if entries != [] {
      var init := entries[..|entries| - 1];
      var e := entries[|entries| - 1];
      PassNotThrownBefore(env, op, root, pk, publicFile, d, entries);
      StampRule(env, op, root, pk, publicFile, d, init);
      var prev := Pass(env, op, root, pk, publicFile, d, init);
      StepFacts(env, op, root, pk, publicFile, prev, e);
      var st := Pass(env, op, root, pk, publicFile, d, entries);
      assert st.index.vals == prev.index.vals[e.indexFile := e.meta.lastUpdatedUTC];
      assert IndexFiles(entries) == IndexFiles(init) + [e.indexFile];
      forall k | k in IndexFiles(entries) ensures st.index.vals[k] == LastTime(entries, k) {
        if k != e.indexFile {
          assert k in IndexFiles(init);
        }
      }
    }
  }

  /** Every entry carries a truthy time. */
  predicate AllStamped(entries: seq<FileEntry>)
  {
    forall i :: 0 <= i < |entries| ==> TruthyNum(entries[i].meta.lastUpdatedUTC)
  }

  /**
   * Update never adds a key, never throws, and never touches a key whose value is falsy
   * or that no entry names.
   */
  lemma {:induction false} UpdateKeeps(env: IndexEnv, root: string, pk: string, publicFile: bool,
                                       d: MasterIndex, entries: seq<FileEntry>)
    ensures var st := Pass(env, Update, root, pk, publicFile, d, entries);
      !st.threw && st.index.keys == d.keys &&
      (forall k :: k in st.index.vals <==> k in d.vals) &&
      (forall k :: k in d.vals && (!TruthyNum(d.vals[k]) || k !in IndexFiles(entries)) ==> st.index.vals[k] == d.vals[k])
  {
    if entries != [] {
      var init := entries[..|entries| - 1];
      var e := entries[|entries| - 1];
      UpdateKeeps(env, root, pk, publicFile, d, init);
      var prev := Pass(env, Update, root, pk, publicFile, d, init);
      StepFacts(env, Update, root, pk, publicFile, prev, e);
      if TruthyNum(Get(prev.index, e.indexFile)) {
        assert e.indexFile in d.vals && TruthyNum(d.vals[e.indexFile]);
      }
    }
  }

  /** Update modifies the index exactly when some entry names a key whose value is truthy. */
  lemma {:induction false} UpdateModifies(env: IndexEnv, root: string, pk: string, publicFile: bool,
                                          d: MasterIndex, entries: seq<FileEntry>)
    ensures Pass(env, Update, root, pk, publicFile, d, entries).modified <==>
      exists k :: k in IndexFiles(entries) && TruthyNum(Get(d, k))
  {
    if entries != [] {
      var init := entries[..|entries| - 1];
      var e := entries[|entries| - 1];
      UpdateModifies(env, root, pk, publicFile, d, init);
      UpdateKeeps(env, root, pk, publicFile, d, init);
      var prev := Pass(env, Update, root, pk, publicFile, d, init);
      StepFacts(env, Update, root, pk, publicFile, prev, e);
      assert IndexFiles(entries) == IndexFiles(init) + [e.indexFile];
      if TruthyNum(Get(prev.index, e.indexFile)) {
        assert e.indexFile in d.vals && TruthyNum(d.vals[e.indexFile]);
        assert e.indexFile in IndexFiles(entries);
      } else if TruthyNum(Get(d, e.indexFile)) {
        assert e.indexFile in IndexFiles(init);
      }
    }
  }

  /** When every entry carries a truthy time, Update leaves each named truthy key at the last entry's time. */
  lemma {:induction false} UpdateStampsLast(env: IndexEnv, root: string, pk: string, publicFile: bool,
                                            d: MasterIndex, entries: seq<FileEntry>, k: string)
    requires AllStamped(entries)
    requires k in IndexFiles(entries) && TruthyNum(Get(d, k))
    ensures var st := Pass(env, Update, root, pk, publicFile, d, entries);
      k in st.index.vals && st.index.vals[k] == LastTime(entries, k)
  {
    var init := entries[..|entries| - 1];
    var e := entries[|entries| - 1];
    assert AllStamped(init) by {
      forall i | 0 <= i < |init| ensures TruthyNum(init[i].meta.lastUpdatedUTC) {
        assert init[i] == entries[i];
      }
    }
    assert TruthyNum(e.meta.lastUpdatedUTC);
    UpdateKeeps(env, root, pk, publicFile, d, init);
    var prev := Pass(env, Update, root, pk, publicFile, d, init);
    StepFacts(env, Update, root, pk, publicFile, prev, e);
    if k in IndexFiles(init) {
      UpdateStampsLast(env, root, pk, publicFile, d, init, k);
      LastTimeStamped(init, k);
    } else {
      assert e.indexFile == k;
    }
  }

  /** The last time of a named key, among stamped entries, is truthy. */
  lemma {:induction false} LastTimeStamped(entries: seq<FileEntry>, k: string)
    requires AllStamped(entries) && k in IndexFiles(entries)
    ensures TruthyNum(LastTime(entries, k))
  {
    var init := entries[..|entries| - 1];
    if entries[|entries| - 1].indexFile != k {
      assert AllStamped(init) by {
        forall i | 0 <= i < |init| ensures TruthyNum(init[i].meta.lastUpdatedUTC) {
          assert init[i] == entries[i];
        }
      }
      LastTimeStamped(init, k);
    }
  }

  /**
   * A null (or zero) time is never deleted or overwritten by Delete, Unshare or Update;
   * only Add and Share replace it.
   */
  lemma NullTimesSurvive(env: IndexEnv, op: FileOperation, root: string, pk: string, publicFile: bool,
                         d: MasterIndex, entries: seq<FileEntry>, k: string)
    requires op == Delete || op == Unshare || op == Update
    requires k in d.vals && !TruthyNum(d.vals[k])
    ensures var st := Pass(env, op, root, pk, publicFile, d, entries);
      k in st.index.vals && st.index.vals[k] == d.vals[k]
  {
    var st := Pass(env, op, root, pk, publicFile, d, entries);
    if op == Update {
      UpdateKeeps(env, root, pk, publicFile, d, entries);
      assert st.index.vals[k] == d.vals[k];
    } else {
      RemovalRule(env, op, root, pk, publicFile, d, entries);
      TruthyFilesMembers(d, entries, k);
      assert k !in TruthyFiles(d, entries);
      assert st.index.vals == d.vals - TruthyFiles(d, entries);
    }
  }

  // ---- key copies in a share ----

  /** The owner's own key file of an entry, the one getPrivateKey('', ...) reads. */
  function OwnKeyFile(e: FileEntry): string
  {
    PrivateKeyFileName("", e.meta.id, e.meta.fileType)
  }

  /** The key file of an entry in a share. */
  function ShareKeyFile(root: string, e: FileEntry): string
  {
    PrivateKeyFileName(root, e.meta.id, e.meta.fileType)
  }

  /**
   * Sharing throws exactly when some entry's own key cannot be read; otherwise every
   * entry's key file in the share gets a sealed copy of an owner key.
   */
  lemma {:induction false} ShareKeyRule(env: IndexEnv, root: string, pk: string, d: MasterIndex, entries: seq<FileEntry>)
    ensures var st := Pass(env, Share, root, pk, true, d, entries);
      (st.threw <==> exists i :: 0 <= i < |entries| && !TruthyStr(env.readOwnKey(OwnKeyFile(entries[i])))) &&
      (!st.threw ==> (forall i :: 0 <= i < |entries| ==> ShareKeyFile(root, entries[i]) in st.lookup.vals) &&
                     (forall k :: k in st.lookup.vals ==> st.lookup.vals[k].Some?))
  {
    ShareThrows(env, root, pk, d, entries);
    if !Pass(env, Share, root, pk, true, d, entries).threw {
      ShareSeals(env, root, pk, d, entries);
    }
  }

  /** Some entry's owner key cannot be read. */
  predicate SomeKeyUnreadable(env: IndexEnv, entries: seq<FileEntry>)
  {
    exists i :: 0 <= i < |entries| && !TruthyStr(env.readOwnKey(OwnKeyFile(entries[i])))
  }

  lemma SomeKeyUnreadableSnoc(env: IndexEnv, entries: seq<FileEntry>)
    requires entries != []
    ensures SomeKeyUnreadable(env, entries) <==>
      SomeKeyUnreadable(env, entries[..|entries| - 1]) || !TruthyStr(env.readOwnKey(OwnKeyFile(entries[|entries| - 1])))
  {
    var init := entries[..|entries| - 1];
    if SomeKeyUnreadable(env, init) {
      var i :| 0 <= i < |init| && !TruthyStr(env.readOwnKey(OwnKeyFile(init[i])));
      assert entries[i] == init[i];
    }
    if SomeKeyUnreadable(env, entries) {
      var i :| 0 <= i < |entries| && !TruthyStr(env.readOwnKey(OwnKeyFile(entries[i])));
      if i < |init| {
        assert entries[i] == init[i];
      }
    }
  }

  lemma {:induction false} ShareThrows(env: IndexEnv, root: string, pk: string, d: MasterIndex, entries: seq<FileEntry>)
    ensures Pass(env, Share, root, pk, true, d, entries).threw <==> SomeKeyUnreadable(env, entries)
  {
    if entries != [] {
      var init := entries[..|entries| - 1];
      var e := entries[|entries| - 1];
      ShareThrows(env, root, pk, d, init);
      SomeKeyUnreadableSnoc(env, entries);
      var prev := Pass(env, Share, root, pk, true, d, init);
      if !prev.threw {
        ShareStep(env, root, pk, prev, e);
      }
    }
  }

  /** Every entry's key file in the share is in the table, and every value there is a sealed key. */
  predicate AllSealed(root: string, entries: seq<FileEntry>, lookup: Dict<Option<string>>)
  {
    (forall i :: 0 <= i < |entries| ==> ShareKeyFile(root, entries[i]) in lookup.vals) &&
    (forall k :: k in lookup.vals ==> lookup.vals[k].Some?)
  }

  lemma SealsSnoc(root: string, entries: seq<FileEntry>, before: Dict<Option<string>>, after: Dict<Option<string>>)
    requires entries != []
    requires AllSealed(root, entries[..|entries| - 1], before)
    requires exists v: string :: after.vals == before.vals[ShareKeyFile(root, entries[|entries| - 1]) := Some(v)]
    ensures AllSealed(root, entries, after)
  {
    var init := entries[..|entries| - 1];
    forall i | 0 <= i < |entries| ensures ShareKeyFile(root, entries[i]) in after.vals {
      if i < |init| {
        assert entries[i] == init[i];
      }
    }
  }

  lemma {:induction false} ShareSeals(env: IndexEnv, root: string, pk: string, d: MasterIndex, entries: seq<FileEntry>)
    requires !Pass(env, Share, root, pk, true, d, entries).threw
    ensures AllSealed(root, entries, Pass(env, Share, root, pk, true, d, entries).lookup)
  {
    if entries != [] {
      var init := entries[..|entries| - 1];
      var e := entries[|entries| - 1];
      var prev := Pass(env, Share, root, pk, true, d, init);
      var st := Pass(env, Share, root, pk, true, d, entries);
      assert st == PassStep(env, Share, root, pk, true, prev, e);
      assert !prev.threw;
      ShareSeals(env, root, pk, d, init);
      ShareStep(env, root, pk, prev, e);
      SealsSnoc(root, entries, prev.lookup, st.lookup);
    }
  }

  /** One entry of a share that has not thrown: it throws exactly when the owner key is unreadable, else seals a copy. */
  lemma ShareStep(env: IndexEnv, root: string, pk: string, st: PassState, e: FileEntry)
    requires !st.threw
    ensures var st' := PassStep(env, Share, root, pk, true, st, e);
      (st'.threw <==> !TruthyStr(env.readOwnKey(OwnKeyFile(e)))) &&
      (!st'.threw ==> st'.lookup.vals == st.lookup.vals[ShareKeyFile(root, e) := Some(env.encryptFor(env.readOwnKey(OwnKeyFile(e)).value, pk))])
  {
  }

  /**
   * The modified flag is not reset per entry: in a share, once one entry was dropped, a later
   * entry whose path is not in the index still has its key file scheduled for deletion.
   */
  lemma StickyModifiedSchedulesKey(env: IndexEnv, root: string, pk: string, d: MasterIndex, a: FileEntry, b: FileEntry)
    requires TruthyNum(Get(d, a.indexFile))
    requires b.indexFile !in d.vals
    ensures b.indexFile !in Pass(env, Unshare, root, pk, true, d, [a]).index.vals
    ensures ShareKeyFile(root, b) in Pass(env, Unshare, root, pk, true, d, [a, b]).lookup.vals
  {
    assert [a, b][..1] == [a];
    assert [a][..0] == [];
    var st0 := Pass(env, Unshare, root, pk, true, d, []);
    var st1 := PassStep(env, Unshare, root, pk, true, st0, a);
    assert Pass(env, Unshare, root, pk, true, d, [a]) == st1;
    UnshareStep(env, root, pk, st0, a);
    UnshareStep(env, root, pk, st1, b);
    assert Pass(env, Unshare, root, pk, true, d, [a, b]) == PassStep(env, Unshare, root, pk, true, st1, b);
  }

  /** One Unshare entry: a truthy path is dropped, and once modified the key file is scheduled for deletion. */
  lemma UnshareStep(env: IndexEnv, root: string, pk: string, st: PassState, e: FileEntry)
    requires !st.threw
    ensures var st' := PassStep(env, Unshare, root, pk, true, st, e);
      !st'.threw &&
      st'.modified == (st.modified || TruthyNum(Get(st.index, e.indexFile))) &&
      st'.index.vals == (if TruthyNum(Get(st.index, e.indexFile)) then st.index.vals - {e.indexFile} else st.index.vals) &&
      (st'.modified ==> st'.lookup.vals == st.lookup.vals[ShareKeyFile(root, e) := None])
  {
  }

  // ---- one scope ----

  /** A user-scoped Add is refused before any read or write; the worker still hears of it. */
  lemma UserScopeRefusesAdd(env: IndexEnv, entries: seq<FileEntry>, userName: Option<string>, worker: bool, fuel: nat)
    requires TruthyStr(userName)
    ensures UpdateEffect(env, Add, entries, userName, worker, fuel) ==
      Some(([], if worker then [CacheIndexes(Some(IndexFiles(entries)))] else []))
  {
  }

  /** A pass in the principal's own scope reads no key and cannot throw. */
  lemma {:induction false} SelfPassNeverThrows(env: IndexEnv, op: FileOperation, pk: string, d: MasterIndex,
                                               entries: seq<FileEntry>)
    ensures !Pass(env, op, "", pk, false, d, entries).threw
  {
    if entries != [] {
      SelfPassNeverThrows(env, op, pk, d, entries[..|entries| - 1]);
    }
  }

  /** Only a Share pass reads the owner's keys, so no other pass throws. */
  lemma {:induction false} OnlySharePassThrows(env: IndexEnv, op: FileOperation, root: string, pk: string,
                                               publicFile: bool, d: MasterIndex, entries: seq<FileEntry>)
    requires op != Share
    ensures !Pass(env, op, root, pk, publicFile, d, entries).threw
  {
    if entries != [] {
      OnlySharePassThrows(env, op, root, pk, publicFile, d, entries[..|entries| - 1]);
    }
  }

  /**
   * In the principal's own scope the call writes the master index back when, and only
   * when, the pass modified it, and goes on to fan out exactly for a modifying Delete or
   * Update whose write succeeded.
   */
  lemma SelfScopeWrites(env: IndexEnv, op: FileOperation, entries: seq<FileEntry>, userName: Option<string>,
                        d: MasterIndex)
    requires !TruthyStr(userName) && |entries| > 0
    requires LoadIndex(env, "master-index", op != Delete) == Some(d)
    ensures var st := Pass(env, op, "", env.ownKey, false, d, entries);
      var s := ScopeEffect(env, op, entries, userName);
      s.writes == (if st.modified then [PutIndex("master-index", st.index)] else []) &&
      (s.fanOut <==> st.modified && env.putOk("master-index") && (op == Delete || op == Update))
  {
    SelfPassNeverThrows(env, op, env.ownKey, d, entries);
  }

  /** A call for a share whose app public key is non-empty never fans out. */
  lemma UserScopeNeverFansOut(env: IndexEnv, op: FileOperation, entries: seq<FileEntry>, userName: Option<string>)
    requires TruthyStr(userName) && ScopeKey(env, userName) != Some("")
    ensures !ScopeEffect(env, op, entries, userName).fanOut
  {
  }

  /**
   * A call for a share whose published app public key is empty still edits the share's
   * internal index, but then takes the principal's branch: a modifying Delete or Update
   * whose write succeeded fans out over every share.
   */
  lemma EmptyShareKeyFansOut(env: IndexEnv, op: FileOperation, entries: seq<FileEntry>, userName: Option<string>,
                             d: MasterIndex)
    requires TruthyStr(userName) && ScopeKey(env, userName) == Some("")
    requires (op == Delete || op == Update) && |entries| > 0
    requires LoadIndex(env, UserDirectory(env.addr, "") + "internal-index", op != Delete) == Some(d)
    requires Pass(env, op, UserDirectory(env.addr, ""), "", true, d, entries).modified
    requires env.putOk(UserDirectory(env.addr, "") + "internal-index")
    ensures ScopeEffect(env, op, entries, userName).fanOut
  {
    OnlySharePassThrows(env, op, UserDirectory(env.addr, ""), "", true, d, entries);
  }

  /** The empty name in the share index is a falsy user name: its call is the principal's own. */
  lemma BlankShareNameIsOwnScope(env: IndexEnv, op: FileOperation, entries: seq<FileEntry>, d: MasterIndex)
    requires (op == Delete || op == Update) && |entries| > 0
    requires LoadIndex(env, "master-index", op != Delete) == Some(d)
    requires Pass(env, op, "", env.ownKey, false, d, entries).modified && env.putOk("master-index")
    ensures ScopeEffect(env, op, entries, Some("")) == ScopeEffect(env, op, entries, None)
    ensures ScopeEffect(env, op, entries, Some("")).fanOut
  {
    SelfScopeWrites(env, op, entries, Some(""), d);
  }

  /**
   * The principal's own Delete or Update that modified the index and wrote it back is
   * re-applied once per user of the share index, in share-index order, after the write.
   */
  lemma SelfChangeFansOut(env: IndexEnv, op: FileOperation, entries: seq<FileEntry>, d: MasterIndex, worker: bool,
                          fuel: nat)
    requires op == Delete || op == Update
    requires |entries| > 0
    requires LoadIndex(env, "master-index", op != Delete) == Some(d)
    requires Pass(env, op, "", env.ownKey, false, d, entries).modified && env.putOk("master-index")
    ensures var written := [PutIndex("master-index", Pass(env, op, "", env.ownKey, false, d, entries).index)];
      UpdateEffect(env, op, entries, None, worker, fuel + 1) ==
        match FanOutCalls(env, op, entries, env.shares, fuel)
        case None => None
        case Some(more) => Some((written + more, if worker then WorkerRequests(op, entries) else []))
  {
    SelfScopeWrites(env, op, entries, None, d);
  }

  /** When no call of the fan-out fans out again, the nested calls write one level, `FanOut`. */
  lemma {:induction false} OneLevelFanOut(env: IndexEnv, op: FileOperation, entries: seq<FileEntry>,
                                          users: seq<string>, fuel: nat)
    requires forall i :: 0 <= i < |users| ==> !ScopeEffect(env, op, entries, Some(users[i])).fanOut
    ensures FanOutCalls(env, op, entries, users, fuel) == Some(FanOut(env, op, entries, users))
  {
    if users != [] {
      var init := users[..|users| - 1];
      forall i | 0 <= i < |init| ensures !ScopeEffect(env, op, entries, Some(init[i])).fanOut {
        assert init[i] == users[i];
      }
      OneLevelFanOut(env, op, entries, init, fuel);
    }
  }

  /**
   * When every user of the share index is a non-empty name with a non-empty app public
   * key, every update ends after one level of fan-out: its writes are the scope's, then,
   * when it fans out, one share call after another, and then the worker requests follow.
   */
  lemma UpdateEndsWithPublicShares(env: IndexEnv, op: FileOperation, entries: seq<FileEntry>,
                                   userName: Option<string>, worker: bool, fuel: nat)
    requires forall i :: 0 <= i < |env.shares| ==> env.shares[i] != "" && ScopeKey(env, Some(env.shares[i])) != Some("")
    ensures var s := ScopeEffect(env, op, entries, userName);
      UpdateEffect(env, op, entries, userName, worker, fuel + 1) ==
        Some((s.writes + (if s.fanOut then FanOut(env, op, entries, env.shares) else []),
              if worker then WorkerRequests(op, entries) else []))
  {
    forall i | 0 <= i < |env.shares| ensures !ScopeEffect(env, op, entries, Some(env.shares[i])).fanOut {
      UserScopeNeverFansOut(env, op, entries, Some(env.shares[i]));
    }
    OneLevelFanOut(env, op, entries, env.shares, fuel);
    assert ScopeEffect(env, op, entries, userName).writes + [] == ScopeEffect(env, op, entries, userName).writes;
  }

  /**
   * A user of the share index whose own call fans out again makes the fan-out unbounded:
   * that call re-enters the loop over the share index, which calls it again, at every depth.
   */
  lemma {:induction false} ReentrantShareNeverEnds(env: IndexEnv, op: FileOperation, entries: seq<FileEntry>,
                                                   u: string, fuel: nat)
    requires u in env.shares && ScopeEffect(env, op, entries, Some(u)).fanOut
    ensures Call(env, op, entries, Some(u), fuel).None?
  {
    if fuel > 0 {
      ReentrantShareNeverEnds(env, op, entries, u, fuel - 1);
      ShareCallStopsFanOut(env, op, entries, u, fuel - 1);
      CallStops(env, op, entries, Some(u), fuel);
    }
  }

  /** A share call that does not end stops the whole loop over the share index. */
  lemma ShareCallStopsFanOut(env: IndexEnv, op: FileOperation, entries: seq<FileEntry>, u: string, fuel: nat)
    requires u in env.shares && Call(env, op, entries, Some(u), fuel).None?
    ensures FanOutCalls(env, op, entries, env.shares, fuel).None?
  {
    var i :| 0 <= i < |env.shares| && env.shares[i] == u;
    FanOutCallsStopsAt(env, op, entries, env.shares, i, fuel);
    FanOutCallsStops(env, op, entries, env.shares, i + 1, fuel);
  }

  /** A call that fans out over a share index holding a re-entrant user never ends. */
  lemma FanOutWithReentrantShareNeverEnds(env: IndexEnv, op: FileOperation, entries: seq<FileEntry>,
                                          userName: Option<string>, u: string, fuel: nat)
    requires ScopeEffect(env, op, entries, userName).fanOut
    requires u in env.shares && ScopeEffect(env, op, entries, Some(u)).fanOut
    ensures UpdateEffect(env, op, entries, userName, false, fuel).None?
    ensures UpdateEffect(env, op, entries, userName, true, fuel).None?
  {
    if fuel > 0 {
      ReentrantShareNeverEnds(env, op, entries, u, fuel - 1);
      ShareCallStopsFanOut(env, op, entries, u, fuel - 1);
      CallStops(env, op, entries, userName, fuel);
    }
  }

  /**
   * The principal's Update that re-stamps the index with truthy times and writes it back
   * never ends when a user of the share index fans out again (the empty name, or a user
   * whose published app key is empty and whose internal index the Update modifies): each
   * nested call finds the keys it re-stamps still truthy, no nesting depth is enough, and
   * the worker requests are never posted.
   */
  lemma UpdateWithReentrantShareNeverEnds(env: IndexEnv, entries: seq<FileEntry>, d: MasterIndex, u: string,
                                          worker: bool, fuel: nat)
    requires |entries| > 0 && AllStamped(entries)
    requires LoadIndex(env, "master-index", true) == Some(d)
    requires Pass(env, Update, "", env.ownKey, false, d, entries).modified && env.putOk("master-index")
    requires u in env.shares && ScopeEffect(env, Update, entries, Some(u)).fanOut
    ensures UpdateEffect(env, Update, entries, None, worker, fuel).None?
  {
    SelfScopeWrites(env, Update, entries, None, d);
    FanOutWithReentrantShareNeverEnds(env, Update, entries, None, u, fuel);
  }

  /**
   * An Update for a share whose internal index cannot be read starts from `{}`: nothing is
   * modified, and the share's public master index is overwritten with an empty index.
   */
  lemma UpdateBlanksUnreadableShare(env: IndexEnv, entries: seq<FileEntry>, userName: string)
    requires userName != "" && |entries| > 0
    requires ScopeKey(env, Some(userName)).Some?
    requires env.readFile(UserDirectory(env.addr, ScopeKey(env, Some(userName)).value) + "internal-index") == ReadFailed
    ensures var pk := ScopeKey(env, Some(userName)).value;
      ScopeEffect(env, Update, entries, Some(userName)).writes ==
        if pk != "" then [PutSealedIndex(UserDirectory(env.addr, pk) + "master-index", pk, Dict([], map[]))] else []
  {
    var pk := ScopeKey(env, Some(userName)).value;
    var root := UserDirectory(env.addr, pk);
    var e: MasterIndex := Dict([], map[]);
    UpdateKeeps(env, root, pk, true, e, entries);
    UpdateModifies(env, root, pk, true, e, entries);
    var st := Pass(env, Update, root, pk, true, e, entries);
    assert !st.modified;
    assert st.index.vals == map[];
  }

  /** A Delete for a share whose internal index cannot be read writes nothing. */
  lemma DeleteSkipsUnreadableShare(env: IndexEnv, entries: seq<FileEntry>, userName: string)
    requires userName != ""
    requires ScopeKey(env, Some(userName)).Some?
    requires env.readFile(UserDirectory(env.addr, ScopeKey(env, Some(userName)).value) + "internal-index") == ReadFailed
    ensures ScopeEffect(env, Delete, entries, Some(userName)).writes == []
  {
  }

  // ---- the worker ----

  /**
   * The requests to the worker depend only on the operation and the entries, never on
   * what the store did: one removecache per entry for Delete, one updatecache per entry for
   * Update, one cacheindexes with every path for Add, nothing for Share and Unshare.
   */
  lemma RequestsIgnoreOutcome(env1: IndexEnv, env2: IndexEnv, op: FileOperation, entries: seq<FileEntry>,
                              u1: Option<string>, u2: Option<string>, f1: nat, f2: nat)
    requires UpdateEffect(env1, op, entries, u1, true, f1).Some? && UpdateEffect(env2, op, entries, u2, true, f2).Some?
    ensures UpdateEffect(env1, op, entries, u1, true, f1).value.1 == UpdateEffect(env2, op, entries, u2, true, f2).value.1
    ensures var r := UpdateEffect(env1, op, entries, u1, true, f1).value.1;
      (op == Delete ==> |r| == |entries| && forall i :: 0 <= i < |entries| ==> r[i] == RemoveCache(Some(entries[i].indexFile))) &&
      (op == Update ==> |r| == |entries| && forall i :: 0 <= i < |entries| ==> r[i] == UpdateCache(Some(entries[i].indexFile))) &&
      (op == Add ==> r == [CacheIndexes(Some(IndexFiles(entries)))]) &&
      (op == Share || op == Unshare ==> r == [])
    ensures UpdateEffect(env1, op, entries, u1, false, f1).Some? && UpdateEffect(env1, op, entries, u1, false, f1).value.1 == []
  {
  }

  // ---- shareFile ----

  /** Users without the share flag receive no call, so a list of them causes no write. */
  lemma {:induction false} ShareSkipsUnselected(env: IndexEnv, metas: seq<FileMeta>, users: seq<ShareUser>, unshare: bool)
    requires forall i :: 0 <= i < |users| ==> !users[i].share
    ensures ShareWrites(env, metas, users, unshare) == []
  {
    if users != [] {
      var init := users[..|users| - 1];
      forall i | 0 <= i < |init| ensures !init[i].share {
        assert init[i] == users[i];
      }
      ShareSkipsUnselected(env, metas, init, unshare);
      assert !users[|users| - 1].share;
    }
  }
}
