/**
 * updateMasterIndex and shareFile: the edits the app makes to a master index when files are
 * added, updated, deleted, shared or unshared, with the private-key copies that go with a
 * share, the fan-out of the principal's deletes and updates to every share, and the
 * requests the worker receives afterwards.
 *
 * The remote store is the oracle `IndexEnv`; the writes attempted are returned in order.
 */
module MasterIndexUpdate {
  import opened Wrappers
  import opened JsValues
  import opened Dicts
  import opened Indexes
  import opened Addressing
  import opened Messages

  datatype FileOperation = Add | Update | Delete | Share | Unshare

  /** The public key getPublicKeyFromPrivate derives from the app private key: never empty. */
  type DerivedKey = s: string | s != "" witness "_"

  /** The metadata of a file as the app holds it. */
  datatype FileMeta = FileMeta(id: string, fileType: string, lastUpdatedUTC: Option<int>, userName: Option<string>)

  /** A file and the path of its index file. */
  datatype FileEntry = FileEntry(indexFile: string, meta: FileMeta)

  /** A read of an index file: the read or the parse throws, the text is empty, or an index. */
  datatype FileRead = ReadFailed | ReadEmpty | ReadOk(index: MasterIndex)

  /**
   * What updateMasterIndex reads: the session's user name and public key, the app public
   * key lookupProfile finds for a user (None when it throws; another user publishes it, so
   * it may be empty), the index files, the private keys getPrivateKey finds (None for
   * undefined), encryptContent for a public key, which putFile calls succeed, and the keys
   * of the share index as stored there, the empty name included (none when it cannot be read).
   */
  datatype IndexEnv = IndexEnv(
    ownName: string,
    ownKey: DerivedKey,
    addr: Hash,
    lookupKey: string -> Option<string>,
    readFile: string -> FileRead,
    readOwnKey: string -> Option<string>,
    encryptFor: (string, string) -> string,
    putOk: string -> bool,
    shares: seq<string>)

  /** A write to the remote store. */
  datatype RemoteWrite =
    | PutIndex(path: string, index: MasterIndex)
    | PutSealedIndex(path: string, forKey: string, index: MasterIndex)
    | PutKey(path: string, blob: Option<string>)
    | DeleteKey(path: string)

  /** The privateLookup dictionary: key-file path to the sealed key to write, or null to delete. */
  type KeyTable = d: Dict<Option<string>> | Valid(d) witness Dict([], map[])

  predicate Removes(op: FileOperation)
  {
    op == Delete || op == Unshare
  }

  /** The operations that copy or drop private keys in a share. */
  predicate MovesKeys(op: FileOperation)
  {
    op == Share || op == Unshare || op == Delete
  }

  /** The operations allowed with a user name. */
  predicate AllowedForUser(op: FileOperation)
  {
    op == Share || op == Unshare || op == Update || op == Delete
  }

  /** The variables of the loop over the file entries; `threw` once a share lacks its key. */
  datatype PassState = PassState(index: MasterIndex, modified: bool, lookup: KeyTable, threw: bool)

  /**
   * One entry: Delete and Unshare drop a key only when its value is truthy; Add and Share
   * set it to the entry's time; Update sets it only when its value is truthy. In a share,
   * once anything was modified, the entry's key file is scheduled: a copy of the owner's
   * key sealed for the share's public key for Share (which throws without a key), a
   * deletion otherwise.
   */
  function PassStep(env: IndexEnv, op: FileOperation, root: string, pk: string, publicFile: bool,
                    st: PassState, e: FileEntry): PassState
  {
    if st.threw then st
    else
      var f := e.indexFile;
      var st1 :=
        if Removes(op) then
          (if TruthyNum(Get(st.index, f)) then st.(index := Remove(st.index, f), modified := true) else st)
        else if op != Update || TruthyNum(Get(st.index, f)) then
          st.(index := Set(st.index, f, e.meta.lastUpdatedUTC), modified := true)
        else st;
      if MovesKeys(op) && st1.modified && publicFile then
        var keyFile := PrivateKeyFileName(root, e.meta.id, e.meta.fileType);
        if op == Share then
          var privateKey := env.readOwnKey(PrivateKeyFileName("", e.meta.id, e.meta.fileType));
          if TruthyStr(privateKey) then st1.(lookup := Set(st1.lookup, keyFile, Some(env.encryptFor(privateKey.value, pk))))
          else st1.(threw := true)
        else st1.(lookup := Set(st1.lookup, keyFile, None))
      else st1
  }

  /** The loop over the file entries, from the index as read. */
  function Pass(env: IndexEnv, op: FileOperation, root: string, pk: string, publicFile: bool,
                d: MasterIndex, entries: seq<FileEntry>): PassState
  {
    if entries == [] then
      var t: Dict<Option<string>> := Empty();
      PassState(d, false, t, false)
    else PassStep(env, op, root, pk, publicFile, Pass(env, op, root, pk, publicFile, d, entries[..|entries| - 1]),
                  entries[|entries| - 1])
  }

  /** getShareRootInfo(userData, false, userName).publicKey: None when getPublicKey throws. */
  function ScopeKey(env: IndexEnv, userName: Option<string>): Option<string>
  {
    if !TruthyStr(userName) || userName.value == env.ownName then Some(env.ownKey)
    else env.lookupKey(userName.value)
  }

  /** The local getMasterIndex: an unreadable file is `{}` when `canCreate`, null otherwise. */
  function LoadIndex(env: IndexEnv, fileName: string, canCreate: bool): Option<MasterIndex>
  {
    match env.readFile(fileName)
    case ReadFailed => if canCreate then var e: Dict<Option<int>> := Empty(); Some(e) else None
    case ReadEmpty => None
    case ReadOk(d) => Some(d)
  }

  /** The writes for the privateLookup entries `keys`, in order. */
  function KeyWrites(op: FileOperation, lookup: KeyTable, keys: seq<string>): seq<RemoteWrite>
  {
    if keys == [] then []
    else
      var k := keys[|keys| - 1];
      KeyWrites(op, lookup, keys[..|keys| - 1]) + [if op == Share then PutKey(k, Get(lookup, k)) else DeleteKey(k)]
  }

  /** What one scope's call does: the writes it attempts, and whether it goes on to fan out. */
  datatype ScopeResult = ScopeResult(writes: seq<RemoteWrite>, fanOut: bool)

  /** The file a scope edits: the principal's master index, or a share's internal index. */
  function ScopeFileName(root: string): string
  {
    if |root| > 0 then root + "internal-index" else "master-index"
  }

  /**
   * One scope of updateMasterIndex, without the fan-out: the validation, the read, the
   * pass, the write of the edited index (only when modified), the key writes of a share,
   * and the sealed copy every share call writes to the share's public master index.
   */
  function ScopeEffect(env: IndexEnv, op: FileOperation, entries: seq<FileEntry>, userName: Option<string>): ScopeResult
  {
    if TruthyStr(userName) && !AllowedForUser(op) then ScopeResult([], false)
    else if |entries| == 0 then ScopeResult([], false)
    else match ScopeKey(env, userName)
      case None => ScopeResult([], false)
      case Some(pk) =>
        var root := if TruthyStr(userName) then UserDirectory(env.addr, pk) else "";
        var publicFile := |root| > 0;
        var fileName := ScopeFileName(root);
        match LoadIndex(env, fileName, op != Delete)
        case None => ScopeResult([], false)
        case Some(d) =>
          var st := Pass(env, op, root, pk, publicFile, d, entries);
          if st.threw then ScopeResult([], false)
          else if st.modified && !env.putOk(fileName) then ScopeResult([PutIndex(fileName, st.index)], false)
          else
            var written := if st.modified then [PutIndex(fileName, st.index)] else [];
            var keys := if st.modified && publicFile && pk != "" then KeyWrites(op, st.lookup, st.lookup.keys) else [];
            var fanOut := st.modified && !(publicFile && pk != "") && (op == Delete || op == Update);
            var sealed := if publicFile && pk != "" then [PutSealedIndex(root + "master-index", pk, st.index)] else [];
            ScopeResult(written + keys + sealed, fanOut)
  }

  /**
   * One level of the fan-out: the scope writes of one call per user of `users`, in order.
   * It is the whole fan-out when none of those calls fans out again.
   */
  function FanOut(env: IndexEnv, op: FileOperation, entries: seq<FileEntry>, users: seq<string>): seq<RemoteWrite>
  {
    if users == [] then []
    else FanOut(env, op, entries, users[..|users| - 1]) + ScopeEffect(env, op, entries, Some(users[|users| - 1])).writes
  }

  /**
   * The writes of one call to updateMasterIndex and of every call it awaits: its scope's
   * writes, then, when it fans out, one nested call per user of the share index. A nested
   * call can fan out again; None when the nesting is deeper than `fuel`.
   */
  function Call(env: IndexEnv, op: FileOperation, entries: seq<FileEntry>, userName: Option<string>,
                fuel: nat): Option<seq<RemoteWrite>>
    decreases fuel, 0
  {
    var s := ScopeEffect(env, op, entries, userName);
    if !s.fanOut then Some(s.writes)
    else if fuel == 0 then None
    else match FanOutCalls(env, op, entries, env.shares, fuel - 1)
      case None => None
      case Some(more) => Some(s.writes + more)
  }

  /** The nested calls for `users`, awaited in order: None once one of them does not end within `fuel`. */
  function FanOutCalls(env: IndexEnv, op: FileOperation, entries: seq<FileEntry>, users: seq<string>,
                       fuel: nat): Option<seq<RemoteWrite>>
    decreases fuel, |users|
  {
    if users == [] then Some([])
    else match FanOutCalls(env, op, entries, users[..|users| - 1], fuel)
      case None => None
      case Some(before) =>
        match Call(env, op, entries, Some(users[|users| - 1]), fuel)
        case None => None
        case Some(last) => Some(before + last)
  }

  /** The index files of the entries, in order. */
  function IndexFiles(entries: seq<FileEntry>): (r: seq<string>)
    ensures |r| == |entries| && forall i :: 0 <= i < |entries| ==> r[i] == entries[i].indexFile
  {
    if entries == [] then [] else IndexFiles(entries[..|entries| - 1]) + [entries[|entries| - 1].indexFile]
  }

  /** The requests posted to the worker after the update. */
  function WorkerRequests(op: FileOperation, entries: seq<FileEntry>): seq<Request>
  {
    match op
    case Delete => seq(|entries|, i requires 0 <= i < |entries| => RemoveCache(Some(entries[i].indexFile)))
    case Update => seq(|entries|, i requires 0 <= i < |entries| => UpdateCache(Some(entries[i].indexFile)))
    case Add => [CacheIndexes(Some(IndexFiles(entries)))]
    case _ => []
  }

  /**
   * updateMasterIndex(userSession, gaiaWorker, operation, fileEntries, userName): the writes
   * of the call and of the calls it awaits, then the requests to the worker; None when the
   * fan-out does not end within `fuel` levels, so that the requests are never posted.
   */
  function UpdateEffect(env: IndexEnv, op: FileOperation, entries: seq<FileEntry>, userName: Option<string>,
                        worker: bool, fuel: nat): Option<(seq<RemoteWrite>, seq<Request>)>
  {
    match Call(env, op, entries, userName, fuel)
    case None => None
    case Some(writes) => Some((writes, if worker then WorkerRequests(op, entries) else []))
  }

  // ---- the implementation ----

  lemma PassSnoc(env: IndexEnv, op: FileOperation, root: string, pk: string, publicFile: bool,
                 d: MasterIndex, entries: seq<FileEntry>, i: nat)
    requires i < |entries|
    ensures Pass(env, op, root, pk, publicFile, d, entries[..i + 1])
         == PassStep(env, op, root, pk, publicFile, Pass(env, op, root, pk, publicFile, d, entries[..i]), entries[i])
  {
    assert entries[..i + 1][..i] == entries[..i];
  }

  lemma PassThrewStays(env: IndexEnv, op: FileOperation, root: string, pk: string, publicFile: bool,
                       d: MasterIndex, entries: seq<FileEntry>, i: nat)
    requires i <= |entries|
    requires Pass(env, op, root, pk, publicFile, d, entries[..i]).threw
    ensures Pass(env, op, root, pk, publicFile, d, entries) == Pass(env, op, root, pk, publicFile, d, entries[..i])
    decreases |entries| - i
  {
    if i < |entries| {
      assert entries[..i + 1][..i] == entries[..i];
      PassThrewStays(env, op, root, pk, publicFile, d, entries, i + 1);
    } else {
      assert entries[..i] == entries;
    }
  }

  /** The `for (let i = 0; i < fileEntries.length; i++)` loop; it ends at the first throw. */
  method RunPass(env: IndexEnv, op: FileOperation, root: string, pk: string, publicFile: bool,
                 d: MasterIndex, entries: seq<FileEntry>) returns (st: PassState)
    ensures st == Pass(env, op, root, pk, publicFile, d, entries)
  {
    var masterIndex: MasterIndex := d;
    var modified := false;
    var t: Dict<Option<string>> := Empty();
    var privateLookup: KeyTable := t;
    var i := 0;
    while i < |entries|
      invariant 0 <= i <= |entries|
      invariant PassState(masterIndex, modified, privateLookup, false) == Pass(env, op, root, pk, publicFile, d, entries[..i])
    {
      ghost var before := PassState(masterIndex, modified, privateLookup, false);
      PassSnoc(env, op, root, pk, publicFile, d, entries, i);
      var e := entries[i];
      if Removes(op) {
        if TruthyNum(Get(masterIndex, e.indexFile)) {
          masterIndex := Remove(masterIndex, e.indexFile);
          modified := true;
        }
      } else if op != Update || TruthyNum(Get(masterIndex, e.indexFile)) {
        masterIndex := Set(masterIndex, e.indexFile, e.meta.lastUpdatedUTC);
        modified := true;
      }
      if MovesKeys(op) && modified && publicFile {
        var sharePrivateKeyFile := PrivateKeyFileName(root, e.meta.id, e.meta.fileType);
        if op == Share {
          var privateKey := env.readOwnKey(PrivateKeyFileName("", e.meta.id, e.meta.fileType));
          if TruthyStr(privateKey) {
            privateLookup := Set(privateLookup, sharePrivateKeyFile, Some(env.encryptFor(privateKey.value, pk)));
          } else {
            assert PassState(masterIndex, modified, privateLookup, true) == PassStep(env, op, root, pk, publicFile, before, e);
            PassThrewStays(env, op, root, pk, publicFile, d, entries, i + 1);
            return PassState(masterIndex, modified, privateLookup, true);
          }
        } else {
          privateLookup := Set(privateLookup, sharePrivateKeyFile, None);
        }
      }
      assert PassState(masterIndex, modified, privateLookup, false) == PassStep(env, op, root, pk, publicFile, before, e);
      i := i + 1;
    }
    assert entries[..i] == entries;
    st := PassState(masterIndex, modified, privateLookup, false);
  }

  /** The `for (let key in privateLookup)` loop; each write's failure is swallowed. */
  method WriteKeys(op: FileOperation, lookup: KeyTable) returns (writes: seq<RemoteWrite>)
    ensures writes == KeyWrites(op, lookup, lookup.keys)
  {
    writes := [];
    var i := 0;
    while i < |lookup.keys|
      invariant 0 <= i <= |lookup.keys|
      invariant writes == KeyWrites(op, lookup, lookup.keys[..i])
    {
      assert lookup.keys[..i + 1][..i] == lookup.keys[..i];
      var key := lookup.keys[i];
      if op == Share {
        writes := writes + [PutKey(key, Get(lookup, key))];
      } else {
        writes := writes + [DeleteKey(key)];
      }
      i := i + 1;
    }
    assert lookup.keys[..i] == lookup.keys;
  }

  /** One scope's call, step by step. */
  method UpdateScope(env: IndexEnv, op: FileOperation, entries: seq<FileEntry>, userName: Option<string>)
    returns (writes: seq<RemoteWrite>, fanOut: bool)
    ensures ScopeResult(writes, fanOut) == ScopeEffect(env, op, entries, userName)
  {
    writes, fanOut := [], false;
    if TruthyStr(userName) && !AllowedForUser(op) {
      return;
    }
    if |entries| == 0 {
      return;
    }
    var publicKey := ScopeKey(env, userName);
    if publicKey.None? {
      return;
    }
    var pk := publicKey.value;
    var root := if TruthyStr(userName) then UserDirectory(env.addr, pk) else "";
    var publicFile := |root| > 0;
    var fileName := ScopeFileName(root);
    var masterIndex := LoadIndex(env, fileName, op != Delete);
    if masterIndex.None? {
      return;
    }
    var st := RunPass(env, op, root, pk, publicFile, masterIndex.value, entries);
    if st.threw {
      return;
    }
    if st.modified {
      writes := [PutIndex(fileName, st.index)];
      if !env.putOk(fileName) {
        return;
      }
      if publicFile && pk != "" {
        var keyWrites := WriteKeys(op, st.lookup);
        writes := writes + keyWrites;
      } else if op == Delete || op == Update {
        fanOut := true;
      }
    }
    if publicFile && pk != "" {
      writes := writes + [PutSealedIndex(root + "master-index", pk, st.index)];
    }
  }

  /** The `for (let userName in shares)` loop of the fan-out; each nested call is awaited. */
  method RunFanOut(env: IndexEnv, op: FileOperation, entries: seq<FileEntry>, fuel: nat)
    returns (writes: Option<seq<RemoteWrite>>)
    ensures writes == FanOutCalls(env, op, entries, env.shares, fuel)
    decreases fuel, 3
  {
    var done: seq<RemoteWrite> := [];
    var i := 0;
    while i < |env.shares|
      invariant 0 <= i <= |env.shares|
      invariant FanOutCalls(env, op, entries, env.shares[..i], fuel) == Some(done)
    {
      FanOutCallsStep(env, op, entries, env.shares, i, fuel);
      var nested := UpdateMasterIndex(env, op, entries, Some(env.shares[i]), false, fuel);
      if nested.None? {
        FanOutCallsStops(env, op, entries, env.shares, i + 1, fuel);
        return None;
      }
      done := done + nested.value.0;
      i := i + 1;
    }
    assert env.shares[..i] == env.shares;
    writes := Some(done);
  }

  lemma FanOutCallsStep(env: IndexEnv, op: FileOperation, entries: seq<FileEntry>, users: seq<string>, i: nat, fuel: nat)
    requires i < |users|
    ensures FanOutCalls(env, op, entries, users[..i + 1], fuel) ==
      match FanOutCalls(env, op, entries, users[..i], fuel)
      case None => None
      case Some(before) =>
        match Call(env, op, entries, Some(users[i]), fuel)
        case None => None
        case Some(last) => Some(before + last)
  {
    assert users[..i + 1][..i] == users[..i];
  }

  /** Once a nested call does not end, no later call of the fan-out runs. */
  lemma FanOutCallsStops(env: IndexEnv, op: FileOperation, entries: seq<FileEntry>, users: seq<string>, i: nat, fuel: nat)
    requires i <= |users|
    requires FanOutCalls(env, op, entries, users[..i], fuel).None?
    ensures FanOutCalls(env, op, entries, users, fuel).None?
    decreases |users| - i
  {
    if i < |users| {
      FanOutCallsStep(env, op, entries, users, i, fuel);
      FanOutCallsStops(env, op, entries, users, i + 1, fuel);
    } else {
      assert users[..i] == users;
    }
  }

  /** The loop over the share index does not end at a user whose call does not end. */
  lemma FanOutCallsStopsAt(env: IndexEnv, op: FileOperation, entries: seq<FileEntry>, users: seq<string>, i: nat,
                           fuel: nat)
    requires i < |users| && Call(env, op, entries, Some(users[i]), fuel).None?
    ensures FanOutCalls(env, op, entries, users[..i + 1], fuel).None?
  {
    FanOutCallsStep(env, op, entries, users, i, fuel);
  }

  /** A call that fans out does not end when its loop over the share index does not. */
  lemma CallStops(env: IndexEnv, op: FileOperation, entries: seq<FileEntry>, userName: Option<string>, fuel: nat)
    requires fuel > 0 && ScopeEffect(env, op, entries, userName).fanOut
    requires FanOutCalls(env, op, entries, env.shares, fuel - 1).None?
    ensures Call(env, op, entries, userName, fuel).None?
  {
  }

  /** One call's update in terms of its scope's result `s`. */
  lemma UpdateEffectShape(env: IndexEnv, op: FileOperation, entries: seq<FileEntry>, userName: Option<string>,
                          worker: bool, fuel: nat, s: ScopeResult)
    requires s == ScopeEffect(env, op, entries, userName)
    ensures var requests := if worker then WorkerRequests(op, entries) else [];
      UpdateEffect(env, op, entries, userName, worker, fuel) ==
        if !s.fanOut then Some((s.writes, requests))
        else if fuel == 0 then None
        else match FanOutCalls(env, op, entries, env.shares, fuel - 1)
          case None => None
          case Some(more) => Some((s.writes + more, requests))
  {
  }

  /** The postMessage calls after the update. */
  method PostRequests(op: FileOperation, entries: seq<FileEntry>) returns (requests: seq<Request>)
    ensures requests == WorkerRequests(op, entries)
  {
    requests := [];
    if op == Delete || op == Update {
      var j := 0;
      while j < |entries|
        invariant 0 <= j <= |entries|
        invariant requests == WorkerRequests(op, entries)[..j]
      {
        requests := requests + [if op == Delete then RemoveCache(Some(entries[j].indexFile))
                                else UpdateCache(Some(entries[j].indexFile))];
        j := j + 1;
      }
      assert WorkerRequests(op, entries)[..j] == WorkerRequests(op, entries);
    } else if op == Add {
      requests := [CacheIndexes(Some(IndexFiles(entries)))];
    }
  }

  /**
   * updateMasterIndex, step by step: the scope's call, then, when it fans out, one nested
   * call per user of the share index (each without a worker, each of which may fan out
   * again), then the requests to the worker. The nesting is bounded by `fuel`; None when
   * the bound is reached.
   */
  method UpdateMasterIndex(env: IndexEnv, op: FileOperation, entries: seq<FileEntry>, userName: Option<string>,
                           worker: bool, fuel: nat) returns (result: Option<(seq<RemoteWrite>, seq<Request>)>)
    ensures result == UpdateEffect(env, op, entries, userName, worker, fuel)
    decreases fuel, 2
  {
    var writes, fanOut := UpdateScope(env, op, entries, userName);
    UpdateEffectShape(env, op, entries, userName, worker, fuel, ScopeResult(writes, fanOut));
    result := FinishUpdate(env, op, entries, worker, fuel, writes, fanOut);
  }

  /** The rest of a call once its scope wrote `writes`: the fan-out when asked for, then the requests. */
  method FinishUpdate(env: IndexEnv, op: FileOperation, entries: seq<FileEntry>, worker: bool, fuel: nat,
                      writes: seq<RemoteWrite>, fanOut: bool) returns (result: Option<(seq<RemoteWrite>, seq<Request>)>)
    ensures var requests := if worker then WorkerRequests(op, entries) else [];
      result ==
        if !fanOut then Some((writes, requests))
        else if fuel == 0 then None
        else match FanOutCalls(env, op, entries, env.shares, fuel - 1)
          case None => None
          case Some(more) => Some((writes + more, requests))
    decreases fuel, 1
  {
    var all := writes;
    if fanOut {
      if fuel == 0 {
        return None;
      }
      var more := RunFanOut(env, op, entries, fuel - 1);
      if more.None? {
        return None;
      }
      all := all + more.value;
    }
    var requests := [];
    if worker {
      requests := PostRequests(op, entries);
    }
    result := Some((all, requests));
  }

  // ---- shareFile ----

  /** A user the file list is shared with or unshared from, when `share` is set. */
  datatype ShareUser = ShareUser(userName: Option<string>, share: bool)

  /** The entries shareFile builds: each file under its index path `type/id.index`. */
  function ShareEntries(metas: seq<FileMeta>): (r: seq<FileEntry>)
    ensures |r| == |metas|
    ensures forall i :: 0 <= i < |metas| ==> r[i] == FileEntry(IndexPath(metas[i].fileType, metas[i].id), metas[i])
  {
    if metas == [] then []
    else
      var m := metas[|metas| - 1];
      ShareEntries(metas[..|metas| - 1]) + [FileEntry(IndexPath(m.fileType, m.id), m)]
  }

  /**
   * The writes of shareFile: one Share (or Unshare) call per selected user, in order, without
   * a worker. Such a call never fans out, so its writes are those of its scope.
   */
  function ShareWrites(env: IndexEnv, metas: seq<FileMeta>, users: seq<ShareUser>, unshare: bool): seq<RemoteWrite>
  {
    if users == [] then []
    else
      var su := users[|users| - 1];
      ShareWrites(env, metas, users[..|users| - 1], unshare) +
        (if su.share then ScopeEffect(env, if unshare then Unshare else Share, ShareEntries(metas), su.userName).writes
         else [])
  }

  /** shareFile(fileEntries, userSession, shareUsers, unshare). */
  method ShareFile(env: IndexEnv, metas: seq<FileMeta>, users: seq<ShareUser>, unshare: bool)
    returns (writes: seq<RemoteWrite>)
    ensures writes == ShareWrites(env, metas, users, unshare)
  {
    var files := ShareEntries(metas);
    var op := if unshare then Unshare else Share;
    writes := [];
    var i := 0;
    while i < |users|
      invariant 0 <= i <= |users|
      invariant writes == ShareWrites(env, metas, users[..i], unshare)
    {
      assert users[..i + 1][..i] == users[..i];
      var su := users[i];
      if su.share {
        var r := UpdateMasterIndex(env, op, files, su.userName, false, 0);
        writes := writes + r.value.0;
      }
      i := i + 1;
    }
    assert users[..i] == users;
  }
}
