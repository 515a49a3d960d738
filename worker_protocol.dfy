/**
 * The gaia worker's message protocol: the `message` switch that turns each request into
 * one reply (or none), the globals it binds on the first `load`, and the `ready` post at
 * script start.
 *
 * `Respond` is the reply, the new globals, the new cache and the remote writes of one
 * request; `GaiaWorker.Handle` performs a request step by step and is proved to produce
 * exactly that outcome.
 */
module WorkerProtocol {
  import opened Wrappers
  import opened JsValues
  import opened Indexes
  import opened CacheStore
  import opened SyncEngine
  import opened Messages
  import WorkerOps

  // ---- decoding e.data ----

  /** The fields of an event's data the commands read; an absent `missing` list is None. */
  datatype EventData = EventData(indexFiles: Option<seq<string>>, indexFile: Option<string>,
                                 groupId: Option<string>, missing: Option<seq<GroupEntry>>,
                                 fileTypes: seq<string>, session: SessionData)

  /** The command names the switch knows. */
  predicate Known(message: string)
  {
    message == "load" || message == "cacheindexes" || message == "removecache" ||
    message == "updatecache" || message == "deletedb" || message == "validate-group-entries"
  }

  /** The `message` string of a request. */
  function Name(r: Request): string
  {
    match r
    case Load(_, _) => "load"
    case CacheIndexes(_) => "cacheindexes"
    case RemoveCache(_) => "removecache"
    case UpdateCache(_) => "updatecache"
    case DeleteDb => "deletedb"
    case ValidateGroupEntries(_, _) => "validate-group-entries"
    case Other(name) => name
  }

  /** The `switch (e.data.message)`: a known name selects its command, any other is Other. */
  function Decode(message: string, d: EventData): (r: Request)
    ensures Name(r) == message
    ensures r.Other? <==> !Known(message)
  {
    if message == "load" then Load(d.fileTypes, d.session)
    else if message == "cacheindexes" then CacheIndexes(d.indexFiles)
    else if message == "removecache" then RemoveCache(d.indexFile)
    else if message == "updatecache" then UpdateCache(d.indexFile)
    else if message == "deletedb" then DeleteDb
    else if message == "validate-group-entries" then
      ValidateGroupEntries(d.groupId, if d.missing.Some? then d.missing.value else [])
    else Other(message)
  }

  // ---- replies and effects ----

  /** A reply's `message`: a text, or the error object a catch received. */
  datatype Payload = Text(text: string) | Error

  /** A postMessage payload; `load` reports its counts. */
  datatype Post =
    | Post(message: Payload, result: bool)
    | LoadComplete(addedCount: nat, hasExisting: bool)

  const Ready := Post(Text("ready"), true)

  const AddFailure := "Unable to add index to cache."
  const RemoveFailure := "Unable to delete cached index."
  const UpdateFailure := "Unable to update cached index."
  const NotSignedIn := "Unable to load data because userSession is not signed in."

  /** The text of a command's success reply; `load` reports counts instead. */
  function CompleteText(name: string): string
  {
    if name == "cacheindexes" then "cacheindexescomplete"
    else if name == "removecache" then "removecachecomplete"
    else if name == "updatecache" then "updatecachecomplete"
    else if name == "deletedb" then "deletedbcomplete"
    else if name == "validate-group-entries" then "validate-group-entries-complete"
    else "loadcomplete"
  }

  /** A remote write the worker attempts: the master index, or a pruned group index. */
  datatype Effect = Master(write: WorkerOps.MasterWrite) | GroupPut(groupId: string, index: GroupIndex)

  function Masters(ws: seq<WorkerOps.MasterWrite>): (r: seq<Effect>)
    ensures |r| == |ws| && forall i :: 0 <= i < |ws| ==> r[i] == Master(ws[i])
  {
    if ws == [] then [] else [Master(ws[0])] + Masters(ws[1..])
  }

  /**
   * What a request meets outside the worker: the remote reads of a reconciliation and of a
   * group check, whether openDB succeeds, whether the master index can be read on load, and
   * the listing and put outcomes of createMasterIndex.
   */
  datatype World = World(env: SyncEnv, genv: WorkerOps.GroupEnv, dbOpens: bool, masterReadable: bool,
                         listing: Option<seq<string>>, firstPutOk: bool, deleteOk: bool, secondPutOk: bool)

  /**
   * The worker's globals: whether `db` and `userSession` are bound (before the first load
   * they are not, and a bare reference to them throws), the session's sign-in and app key,
   * and `fileTypes`.
   */
  datatype Globals = Globals(dbBound: bool, sessionBound: bool, signedIn: bool, appKey: bool,
                             fileTypes: seq<string>)

  /** One request's reply (None when the handler throws before posting), globals, cache and writes. */
  datatype Outcome = Outcome(post: Option<Post>, globals: Globals, entries: map<Id, CacheEntry>, effects: seq<Effect>)

  function Reply(c: WorkerOps.Completion, failure: string, complete: string): Post
  {
    match c
    case Returned(ok) => if ok then Post(Text(complete), true) else Post(Text(failure), false)
    case Threw => Post(Error, false)
  }

  // ---- the switch, case by case ----

  /** createMasterIndex's writes and whether it throws. */
  function CreateOutcome(w: World): (seq<WorkerOps.MasterWrite>, bool)
  {
    if w.listing.None? then ([], true)
    else
      var index := WorkerOps.ListedMasterIndex(w.listing.value);
      if w.firstPutOk then ([WorkerOps.PutMaster(index)], false)
      else if !w.deleteOk then ([WorkerOps.PutMaster(index), WorkerOps.DeleteMaster], true)
      else ([WorkerOps.PutMaster(index), WorkerOps.DeleteMaster, WorkerOps.PutMaster(index)], !w.secondPutOk)
  }

  /**
   * The rest of `load` once the session is in place. Without an app private key the own
   * reconciliation throws deriving the owner key before any read, and its catch-all
   * reports no files and nothing existing, the cache untouched.
   */
  function LoadSession(g: Globals, w: World, entries: map<Id, CacheEntry>): Outcome
  {
    if !g.signedIn then Outcome(Some(Post(Text(NotSignedIn), false)), g, entries, [])
    else
      var created := if w.masterReadable then ([], false) else CreateOutcome(w);
      var made := Masters(created.0);
      if created.1 then Outcome(Some(Post(Error, false)), g, entries, made)
      else if !g.appKey then Outcome(Some(LoadComplete(0, false)), g, entries, made)
      else
        var r := Reconcile(w.env, g.fileTypes, None, entries);
        Outcome(Some(LoadComplete(r.count, r.hasExisting)), g, r.cache,
                made + if r.masterWrite.Some? then [Master(WorkerOps.PutMaster(r.masterWrite.value))] else [])
  }

  /**
   * `load`: open the database unless `db` is bound, build the session unless one is bound
   * and signed in, then (signed in) recreate an unreadable master index and reconcile the
   * principal's own scope. Every throw is caught and posted; the per-share reconciliations
   * it launches without awaiting are not part of the reply.
   */
  function RespondLoad(g: Globals, w: World, fileTypes: seq<string>, s: SessionData,
                       entries: map<Id, CacheEntry>): Outcome
  {
    if !g.dbBound && !w.dbOpens then Outcome(Some(Post(Error, false)), g, entries, [])
    else
      var g1 := g.(dbBound := true);
      if g1.sessionBound && g1.signedIn then LoadSession(g1, w, entries)
      else
        var g2 := g1.(fileTypes := fileTypes);
        if !s.parses then Outcome(Some(Post(Error, false)), g2, entries, [])
        else LoadSession(g2.(sessionBound := true, signedIn := s.signedIn, appKey := s.appKey), w, entries)
  }

  /** `cacheindexes`: the batch fill when signed in with a non-empty list. */
  function RespondCacheIndexes(g: Globals, w: World, indexFiles: Option<seq<string>>,
                               entries: map<Id, CacheEntry>): Outcome
  {
    if !g.sessionBound then Outcome(None, g, entries, [])
    else if g.signedIn && indexFiles.Some? && |indexFiles.value| > 0 then
      var (c, after) := WorkerOps.AddIndexes(w.env, g.appKey, indexFiles.value, entries);
      Outcome(Some(Reply(c, AddFailure, CompleteText("cacheindexes"))), g, after, [])
    else Outcome(Some(Post(Text(AddFailure), false)), g, entries, [])
  }

  /** `removecache`: the self-scope removal when signed in with a non-empty path. */
  function RespondRemoveCache(g: Globals, w: World, indexFile: Option<string>,
                              entries: map<Id, CacheEntry>): Outcome
  {
    if !g.sessionBound then Outcome(None, g, entries, [])
    else if g.signedIn && TruthyStr(indexFile) then
      var id := WorkerOps.RemovedId(w.env, indexFile.value, None, g.appKey);
      Outcome(Some(Reply(WorkerOps.Returned(id.Some?), RemoveFailure, CompleteText("removecache"))), g,
              if id.Some? then entries - {id.value} else entries, [])
    else Outcome(Some(Post(Text(RemoveFailure), false)), g, entries, [])
  }

  /** `updatecache`: the self-scope update when signed in with a non-empty path. */
  function RespondUpdateCache(g: Globals, w: World, indexFile: Option<string>,
                              entries: map<Id, CacheEntry>): Outcome
  {
    if !g.sessionBound then Outcome(None, g, entries, [])
    else if g.signedIn && TruthyStr(indexFile) then
      var u := WorkerOps.PlanUpdate(w.env, indexFile.value, None, g.appKey);
      Outcome(Some(Reply(WorkerOps.UpdateCompletion(u), UpdateFailure, CompleteText("updatecache"))), g,
              WorkerOps.ApplyUpdate(entries, u), [])
    else Outcome(Some(Post(Text(UpdateFailure), false)), g, entries, [])
  }

  /** The group index validateGroupEntries writes back, if any. */
  function PrunedGroup(genv: WorkerOps.GroupEnv, groupId: Option<string>, missing: seq<GroupEntry>): Option<GroupIndex>
  {
    if TruthyStr(groupId) && exists i :: 0 <= i < |missing| && WorkerOps.Lost(genv, genv.readGroup(groupId.value), missing[i])
    then
      var g := genv.readGroup(groupId.value);
      Some(Dicts.RemoveAll(g, WorkerOps.LostFiles(genv, g, missing)))
    else None
  }

  /** `validate-group-entries`: the group check, which reads `userSession` only when it has work. */
  function RespondValidate(g: Globals, w: World, groupId: Option<string>, missing: seq<GroupEntry>,
                           entries: map<Id, CacheEntry>): Outcome
  {
    if TruthyStr(groupId) && |missing| > 0 && !g.sessionBound then Outcome(None, g, entries, [])
    else
      var write := PrunedGroup(w.genv, groupId, missing);
      Outcome(Some(Post(Text(CompleteText("validate-group-entries")), true)), g, entries,
              if write.Some? then [GroupPut(groupId.value, write.value)] else [])
  }

  /** The whole switch. */
  function Respond(g: Globals, w: World, r: Request, entries: map<Id, CacheEntry>): Outcome
  {
    match r
    case Load(fileTypes, s) => RespondLoad(g, w, fileTypes, s, entries)
    case CacheIndexes(indexFiles) => RespondCacheIndexes(g, w, indexFiles, entries)
    case RemoveCache(indexFile) => RespondRemoveCache(g, w, indexFile, entries)
    case UpdateCache(indexFile) => RespondUpdateCache(g, w, indexFile, entries)
    case DeleteDb =>
      if !g.dbBound then Outcome(None, g, entries, [])
      else Outcome(Some(Post(Text(CompleteText("deletedb")), true)), g, map[], [])
    case ValidateGroupEntries(groupId, missing) => RespondValidate(g, w, groupId, missing, entries)
    case Other(_) => Outcome(Some(Post(Text("unknown"), false)), g, entries, [])
  }

  // ---- what the protocol promises ----

  /** A reply with result true to a named command carries that command's complete text; `ready` is never a reply. */
  lemma SuccessTextNamesCommand(g: Globals, w: World, r: Request, entries: map<Id, CacheEntry>, t: string)
    requires Respond(g, w, r, entries).post == Some(Post(Text(t), true))
    ensures Known(Name(r)) && t == CompleteText(Name(r))
  {
  }

  lemma NeverReady(g: Globals, w: World, r: Request, entries: map<Id, CacheEntry>)
    ensures Respond(g, w, r, entries).post != Some(Ready)
  {
    if Respond(g, w, r, entries).post == Some(Ready) {
      SuccessTextNamesCommand(g, w, r, entries, "ready");
      assert false;
    }
  }

  /** An unknown command is refused, and nothing changes. */
  lemma UnknownRefused(g: Globals, w: World, message: string, d: EventData, entries: map<Id, CacheEntry>)
    requires !Known(message)
    ensures var o := Respond(g, w, Decode(message, d), entries);
      o.post == Some(Post(Text("unknown"), false)) && o.globals == g && o.entries == entries && o.effects == []
  {
  }

  /** The three cache commands throw before posting while `userSession` is unbound, touching nothing. */
  lemma SilentBeforeSession(g: Globals, w: World, r: Request, entries: map<Id, CacheEntry>)
    requires r.CacheIndexes? || r.RemoveCache? || r.UpdateCache?
    requires !g.sessionBound
    ensures var o := Respond(g, w, r, entries);
      o.post.None? && o.globals == g && o.entries == entries && o.effects == []
  {
  }

  /** A bound but signed-out session gets each cache command's failure text, and nothing changes. */
  lemma SignedOutFails(g: Globals, w: World, r: Request, entries: map<Id, CacheEntry>)
    requires r.CacheIndexes? || r.RemoveCache? || r.UpdateCache?
    requires g.sessionBound && !g.signedIn
    ensures var o := Respond(g, w, r, entries);
      o.post == Some(Post(Text(if r.CacheIndexes? then AddFailure else if r.RemoveCache? then RemoveFailure
                               else UpdateFailure), false)) &&
      o.globals == g && o.entries == entries
  {
  }

  /** `cacheindexes` completes exactly when signed in with a non-empty list whose batch returns true. */
  lemma CacheIndexesCompletesIff(g: Globals, w: World, indexFiles: Option<seq<string>>, entries: map<Id, CacheEntry>)
    ensures Respond(g, w, CacheIndexes(indexFiles), entries).post == Some(Post(Text("cacheindexescomplete"), true)) <==>
      g.sessionBound && g.signedIn && indexFiles.Some? && |indexFiles.value| > 0 &&
      WorkerOps.AddIndexes(w.env, g.appKey, indexFiles.value, entries).0 == WorkerOps.Returned(true)
  {
  }

  /** `removecache` completes exactly when signed in with a path and an owner key, and then drops that id only. */
  lemma RemoveCacheCompletesIff(g: Globals, w: World, indexFile: Option<string>, entries: map<Id, CacheEntry>)
    ensures var o := Respond(g, w, RemoveCache(indexFile), entries);
      (o.post == Some(Post(Text("removecachecomplete"), true)) <==>
        g.sessionBound && g.signedIn && TruthyStr(indexFile) &&
        WorkerOps.RemovedId(w.env, indexFile.value, None, g.appKey).Some?) &&
      (o.post == Some(Post(Text("removecachecomplete"), true)) ==>
        o.entries == entries - {WorkerOps.RemovedId(w.env, indexFile.value, None, g.appKey).value}) &&
      (o.post != Some(Post(Text("removecachecomplete"), true)) ==> o.entries == entries)
  {
  }

  /** `updatecache` completes exactly when the update stores a record, and a failed one changes nothing. */
  lemma UpdateCacheCompletesIff(g: Globals, w: World, indexFile: Option<string>, entries: map<Id, CacheEntry>)
    ensures var o := Respond(g, w, UpdateCache(indexFile), entries);
      (o.post == Some(Post(Text("updatecachecomplete"), true)) <==>
        g.sessionBound && g.signedIn && TruthyStr(indexFile) &&
        WorkerOps.PlanUpdate(w.env, indexFile.value, None, g.appKey).Upserted?) &&
      (o.post != Some(Post(Text("updatecachecomplete"), true)) ==> o.entries == entries)
  {
  }

  /** `deletedb` and `validate-group-entries` always complete once the globals they read are bound. */
  lemma HousekeepingCompletes(g: Globals, w: World, r: Request, entries: map<Id, CacheEntry>)
    requires r.DeleteDb? || r.ValidateGroupEntries?
    requires g.dbBound && g.sessionBound
    ensures var o := Respond(g, w, r, entries);
      o.post == Some(Post(Text(CompleteText(Name(r))), true)) && (r.DeleteDb? ==> o.entries == map[])
  {
  }

  /**
   * `load` reports counts exactly when the database opens (or is open), a signed-in session
   * is in place (kept, or built from the request), and the master index is readable or
   * recreated without a throw. With an app key the counts and the cache are those of
   * reconciling the own scope; without one they are 0 and false, the cache unchanged.
   */
  lemma LoadCompletesIff(g: Globals, w: World, fileTypes: seq<string>, s: SessionData, entries: map<Id, CacheEntry>)
    ensures var o := Respond(g, w, Load(fileTypes, s), entries);
      var kept := g.sessionBound && g.signedIn;
      (o.post.Some? && o.post.value.LoadComplete? <==>
        (g.dbBound || w.dbOpens) && (kept || (s.parses && s.signedIn)) && (w.masterReadable || !CreateOutcome(w).1)) &&
      (o.post.Some? && o.post.value.LoadComplete? ==>
        var r := Reconcile(w.env, o.globals.fileTypes, None, entries);
        (o.globals.appKey ==> o.post.value == LoadComplete(r.count, r.hasExisting) && o.entries == r.cache) &&
        (!o.globals.appKey ==> o.post.value == LoadComplete(0, false) && o.entries == entries) &&
        o.globals.appKey == (if kept then g.appKey else s.appKey) &&
        o.globals.fileTypes == (if kept then g.fileTypes else fileTypes) &&
        o.globals.dbBound && o.globals.sessionBound && o.globals.signedIn)
  {
  }

  /** A loaded, signed-in session is not rebuilt: a second `load` keeps the app key and file types. */
  lemma LoadKeepsSession(g: Globals, w: World, fileTypes: seq<string>, s: SessionData, entries: map<Id, CacheEntry>)
    requires g.dbBound && g.sessionBound && g.signedIn
    ensures Respond(g, w, Load(fileTypes, s), entries).globals == g
  {
  }

  /** Bindings only grow, and `userSession` is bound only after `db`. */
  lemma BindingsStay(g: Globals, w: World, r: Request, entries: map<Id, CacheEntry>)
    requires g.sessionBound ==> g.dbBound
    ensures var h := Respond(g, w, r, entries).globals;
      (h.sessionBound ==> h.dbBound) && (g.dbBound ==> h.dbBound) && (g.sessionBound ==> h.sessionBound)
  {
  }

  // ---- the worker ----

  class GaiaWorker {
    var dbBound: bool
    var sessionBound: bool
    var signedIn: bool
    var appKey: bool
    var fileTypes: seq<string>
    /** The IndexedDB store 'cached-indexes'. */
    const db: CacheDb
    /** Every postMessage so far, in order. */
    var posted: seq<Post>
    /** Every remote write attempted so far, in order. */
    var effects: seq<Effect>

    function State(): Globals
      reads this
    {
      Globals(dbBound, sessionBound, signedIn, appKey, fileTypes)
    }

    /** `ready` is the first post and no later post is `ready`; `userSession` is bound only after `db`. */
    ghost predicate Valid()
      reads this
    {
      (sessionBound ==> dbBound) &&
      |posted| > 0 && posted[0] == Ready && forall i :: 0 < i < |posted| ==> posted[i] != Ready
    }

    /** Script start: nothing is bound, the store holds what earlier sessions left, and `ready` is posted. */
    constructor (stored: map<Id, CacheEntry>)
      ensures Valid() && posted == [Ready] && effects == []
      ensures !dbBound && !sessionBound && fresh(db) && db.entries == stored
    {
      dbBound, sessionBound, signedIn, appKey, fileTypes := false, false, false, false, [];
      var store := new CacheDb();
      store.entries := stored;
      db := store;
      posted := [Ready];
      effects := [];
    }

    /** The message listener: one request, one reply at most. */
    method Handle(w: World, r: Request) returns (post: Option<Post>)
      requires Valid()
      modifies this, db
      ensures Valid()
      ensures var o := Respond(old(State()), w, r, old(db.entries));
        post == o.post && State() == o.globals && db.entries == o.entries && effects == old(effects) + o.effects &&
        posted == old(posted) + (if post.Some? then [post.value] else [])
    {
      ghost var g, e0 := State(), db.entries;
      post := Dispatch(w, r);
      NeverReady(g, w, r, e0);
      BindingsStay(g, w, r, e0);
      if post.Some? {
        posted := posted + [post.value];
        assert posted[|posted| - 1] != Ready;
      }
    }

    /** The switch on `message`, before anything is posted. */
    method Dispatch(w: World, r: Request) returns (post: Option<Post>)
      modifies this, db
      ensures var o := Respond(old(State()), w, r, old(db.entries));
        post == o.post && State() == o.globals && db.entries == o.entries && effects == old(effects) + o.effects
      ensures posted == old(posted)
    {
      ghost var g, e0 := State(), db.entries;
      ghost var o := Respond(g, w, r, e0);
      match r {
        case Load(ft, s) =>
          assert o == RespondLoad(g, w, ft, s, e0);
          post := HandleLoad(w, ft, s);
        case CacheIndexes(indexFiles) =>
          assert o == RespondCacheIndexes(g, w, indexFiles, e0);
          post := HandleCacheIndexes(w, indexFiles);
        case RemoveCache(indexFile) =>
          assert o == RespondRemoveCache(g, w, indexFile, e0);
          post := HandleRemoveCache(w, indexFile);
        case UpdateCache(indexFile) =>
          assert o == RespondUpdateCache(g, w, indexFile, e0);
          post := HandleUpdateCache(w, indexFile);
        case DeleteDb => post := HandleDeleteDb(w);
        case ValidateGroupEntries(groupId, missing) =>
          assert o == RespondValidate(g, w, groupId, missing, e0);
          post := HandleValidate(w, groupId, missing);
        case Other(_) => post := Some(Post(Text("unknown"), false));
      }
    }

    method HandleLoad(w: World, ft: seq<string>, s: SessionData) returns (post: Option<Post>)
      modifies this, db
      ensures var o := RespondLoad(old(State()), w, ft, s, old(db.entries));
        post == o.post && State() == o.globals && db.entries == o.entries && effects == old(effects) + o.effects
      ensures posted == old(posted)
    {
      ghost var g, e0 := State(), db.entries;
      if !dbBound {
        if !w.dbOpens {
          return Some(Post(Error, false));
        }
        dbBound := true;
      }
      if !(sessionBound && signedIn) {
        fileTypes := ft;
        if !s.parses {
          return Some(Post(Error, false));
        }
        sessionBound, signedIn, appKey := true, s.signedIn, s.appKey;
      }
      assert RespondLoad(g, w, ft, s, e0) == LoadSession(State(), w, e0);
      post := LoadWithSession(w);
    }

    /** The signed-in check, the master index check and the own-scope reconciliation. */
    method LoadWithSession(w: World) returns (post: Option<Post>)
      modifies this, db
      ensures var o := LoadSession(old(State()), w, old(db.entries));
        post == o.post && State() == o.globals && db.entries == o.entries && effects == old(effects) + o.effects
      ensures posted == old(posted)
    {
      if !signedIn {
        return Some(Post(Text(NotSignedIn), false));
      }
      var threw := false;
      if !w.masterReadable {
        threw := RecreateMaster(w);
        if threw {
          return Some(Post(Error, false));
        }
      } else {
        assert Masters([]) == [];
        assert effects == old(effects) + Masters([]);
      }
      if !appKey {
        return Some(LoadComplete(0, false));
      }
      ghost var made := effects;
      var count, hasExisting, masterWrite := SaveGaiaIndexesToCache(db, w.env, fileTypes, None);
      if masterWrite.Some? {
        effects := effects + [Master(WorkerOps.PutMaster(masterWrite.value))];
      }
      post := Some(LoadComplete(count, hasExisting));
    }

    /** createMasterIndex, its writes recorded. */
    method RecreateMaster(w: World) returns (threw: bool)
      modifies this
      ensures threw == CreateOutcome(w).1 && effects == old(effects) + Masters(CreateOutcome(w).0)
      ensures State() == old(State()) && posted == old(posted)
    {
      var index, writes;
      index, writes, threw := WorkerOps.CreateMasterIndex(w.listing, w.firstPutOk, w.deleteOk, w.secondPutOk);
      if w.listing.Some? && !w.firstPutOk {
        if w.deleteOk {
          assert writes == [writes[0], writes[1], writes[2]];
        } else {
          assert writes == [writes[0], writes[1]];
        }
      }
      assert (writes, threw) == CreateOutcome(w);
      effects := effects + Masters(writes);
    }

    method HandleCacheIndexes(w: World, indexFiles: Option<seq<string>>) returns (post: Option<Post>)
      modifies db
      ensures var o := RespondCacheIndexes(State(), w, indexFiles, old(db.entries));
        post == o.post && db.entries == o.entries && o.globals == State() && o.effects == []
    {
      if !sessionBound {
        return None;
      }
      if signedIn && indexFiles.Some? && |indexFiles.value| > 0 {
        var c := WorkerOps.AddIndexesToCache(db, w.env, appKey, indexFiles.value);
        return Some(Reply(c, AddFailure, "cacheindexescomplete"));
      }
      return Some(Post(Text(AddFailure), false));
    }

    method HandleRemoveCache(w: World, indexFile: Option<string>) returns (post: Option<Post>)
      modifies db
      ensures var o := RespondRemoveCache(State(), w, indexFile, old(db.entries));
        post == o.post && db.entries == o.entries && o.globals == State() && o.effects == []
    {
      if !sessionBound {
        return None;
      }
      if signedIn && TruthyStr(indexFile) {
        var removed := WorkerOps.RemoveCachedIndex(db, w.env, indexFile.value, None, appKey);
        return Some(Reply(WorkerOps.Returned(removed), RemoveFailure, "removecachecomplete"));
      }
      return Some(Post(Text(RemoveFailure), false));
    }

    method HandleUpdateCache(w: World, indexFile: Option<string>) returns (post: Option<Post>)
      modifies db
      ensures var o := RespondUpdateCache(State(), w, indexFile, old(db.entries));
        post == o.post && db.entries == o.entries && o.globals == State() && o.effects == []
    {
      if !sessionBound {
        return None;
      }
      if signedIn && TruthyStr(indexFile) {
        var c := WorkerOps.UpdateCachedIndex(db, w.env, indexFile.value, None, appKey);
        return Some(Reply(c, UpdateFailure, "updatecachecomplete"));
      }
      return Some(Post(Text(UpdateFailure), false));
    }

    method HandleDeleteDb(w: World) returns (post: Option<Post>)
      modifies db
      ensures var o := Respond(State(), w, DeleteDb, old(db.entries));
        post == o.post && db.entries == o.entries && o.globals == State() && o.effects == []
    {
      if !dbBound {
        return None;
      }
      db.Clear();
      return Some(Post(Text("deletedbcomplete"), true));
    }

    method HandleValidate(w: World, groupId: Option<string>, missing: seq<GroupEntry>) returns (post: Option<Post>)
      modifies this
      ensures var o := RespondValidate(old(State()), w, groupId, missing, db.entries);
        post == o.post && State() == old(State()) && effects == old(effects) + o.effects && posted == old(posted)
    {
      if TruthyStr(groupId) && |missing| > 0 && !sessionBound {
        return None;
      }
      var write := WorkerOps.ValidateGroupEntries(w.genv, groupId, missing);
      if write.Some? {
        effects := effects + [GroupPut(groupId.value, write.value)];
      }
      return Some(Post(Text("validate-group-entries-complete"), true));
    }
  }
}
