/**
 * The local "cached-indexes" store: records keyed by the derived cache id, with a
 * `section` (`${ownerPublicKey}_${type}`) used for scoped scans and the share name of the
 * viewing context (absent for the principal's own view).
 */
module CacheStore {
  import opened Wrappers
  import opened JsValues

  /** A cache id: the address createIndexID derives. */
  type Id = string

  /** One record of "cached-indexes"; the primary key `id` is the key of the store's map. */
  datatype CacheEntry = CacheEntry(section: string, data: string, lastUpdated: Option<int>,
                                   shareName: Option<string>)

  /** The store object: db.put and db.delete change it in place. */
  class CacheDb {
    var entries: map<Id, CacheEntry>

    constructor ()
      ensures entries == map[]
    {
      entries := map[];
    }

    /** db.put('cached-indexes', entry): last write wins for a given id. */
    method Put(id: Id, entry: CacheEntry)
      modifies this
      ensures entries == old(entries)[id := entry]
    {
      entries := entries[id := entry];
    }

    /** db.delete('cached-indexes', id): deleting an absent id is a no-op. */
    method Delete(id: Id)
      modifies this
      ensures entries == old(entries) - {id}
    {
      entries := entries - {id};
    }

    /** idb.deleteDB: the whole store is dropped. */
    method Clear()
      modifies this
      ensures entries == map[]
    {
      entries := map[];
    }
  }

  /** The section of a record: `${ownerPublicKey}_${type}`. */
  function Section(owner: string, fileType: string): string
  {
    owner + "_" + fileType
  }

  /** The sections scanned for a list of resource types. */
  function Sections(owner: string, fileTypes: seq<string>): set<string>
  {
    set t | t in fileTypes :: Section(owner, t)
  }

  /**
   * The share-name test of the reconciliation scan: with no user name only records
   * without a share name; with a user name only records whose share name equals it,
   * ignoring case.
   */
  predicate AdmitsShare(userName: Option<string>, shareName: Option<string>)
  {
    if !TruthyStr(userName) then !TruthyStr(shareName)
    else TruthyStr(shareName) && ToLower(userName.value) == ToLower(shareName.value)
  }

  /** A record the reconciliation of scope (owner, userName) looks at. */
  predicate InScope(e: CacheEntry, owner: string, fileTypes: seq<string>, userName: Option<string>)
  {
    e.section in Sections(owner, fileTypes) && AdmitsShare(userName, e.shareName)
  }

  /** The existingCache dictionary: id to cached lastUpdated for every record in scope. */
  function ExistingCache(entries: map<Id, CacheEntry>, owner: string, fileTypes: seq<string>,
                         userName: Option<string>): map<Id, Option<int>>
  {
    map id | id in entries && InScope(entries[id], owner, fileTypes, userName) :: entries[id].lastUpdated
  }

  /** The records one cursor over the `section` index yields and the share-name test admits. */
  function SectionScan(entries: map<Id, CacheEntry>, key: string, userName: Option<string>): map<Id, Option<int>>
  {
    map id | id in entries && entries[id].section == key && AdmitsShare(userName, entries[id].shareName)
      :: entries[id].lastUpdated
  }

  lemma ExistingCacheSnoc(entries: map<Id, CacheEntry>, owner: string, fileTypes: seq<string>,
                          userName: Option<string>, i: nat)
    requires i < |fileTypes|
    ensures ExistingCache(entries, owner, fileTypes[..i + 1], userName)
         == ExistingCache(entries, owner, fileTypes[..i], userName)
          + SectionScan(entries, Section(owner, fileTypes[i]), userName)
  {
    assert fileTypes[..i + 1] == fileTypes[..i] + [fileTypes[i]];
    assert Sections(owner, fileTypes[..i + 1]) == Sections(owner, fileTypes[..i]) + {Section(owner, fileTypes[i])};
  }

  /** The ids a cursor over the `section` index visits for `key`. */
  function InSection(entries: map<Id, CacheEntry>, key: string): set<Id>
  {
    set id | id in entries && entries[id].section == key
  }

  /** The admitted records among `ids`. */
  function Admitted(entries: map<Id, CacheEntry>, ids: set<Id>, userName: Option<string>): map<Id, Option<int>>
    requires ids <= entries.Keys
  {
    map id | id in ids && AdmitsShare(userName, entries[id].shareName) :: entries[id].lastUpdated
  }

  lemma AdmittedAdd(entries: map<Id, CacheEntry>, ids: set<Id>, id: Id, userName: Option<string>)
    requires ids <= entries.Keys && id in entries && id !in ids
    ensures Admitted(entries, ids + {id}, userName)
         == if AdmitsShare(userName, entries[id].shareName)
            then Admitted(entries, ids, userName)[id := entries[id].lastUpdated]
            else Admitted(entries, ids, userName)
  {
  }

  lemma AdmittedSection(entries: map<Id, CacheEntry>, key: string, userName: Option<string>)
    ensures Admitted(entries, InSection(entries, key), userName)
         == SectionScan(entries, key, userName)
  {
  }

  lemma MergeUpdate(acc: map<Id, Option<int>>, m: map<Id, Option<int>>, id: Id, v: Option<int>)
    ensures (acc + m)[id := v] == acc + m[id := v]
  {
  }

  /** One cursor over the `section` index, adding the admitted records to the dictionary. */
  method ScanCursor(entries: map<Id, CacheEntry>, key: string, userName: Option<string>,
                    acc: map<Id, Option<int>>, accHas: bool)
    returns (existingCache: map<Id, Option<int>>, hasExisting: bool)
    requires accHas <==> acc.Keys != {}
    ensures existingCache == acc + SectionScan(entries, key, userName)
    ensures hasExisting <==> existingCache.Keys != {}
  {
    var inSection := InSection(entries, key);
    var cursor := inSection;
    ghost var done: set<Id> := {};
    existingCache, hasExisting := acc, accHas;
    while cursor != {}
      invariant cursor <= inSection && done == inSection - cursor
      invariant existingCache == acc + Admitted(entries, done, userName)
      invariant hasExisting <==> existingCache.Keys != {}
      decreases cursor
    {
      var id :| id in cursor;
      assert id in entries && id !in done;
      AdmittedAdd(entries, done, id, userName);
      if AdmitsShare(userName, entries[id].shareName) {
        MergeUpdate(acc, Admitted(entries, done, userName), id, entries[id].lastUpdated);
        existingCache := existingCache[id := entries[id].lastUpdated];
        assert id in existingCache.Keys;
        hasExisting := true;
      }
      cursor := cursor - {id};
      done := done + {id};
    }
    assert done == inSection;
    AdmittedSection(entries, key, userName);
  }

  /**
   * The scan of saveGaiaIndexesToCache: one cursor per resource type over the `section`
   * index, keeping the records the share-name test admits.
   */
  method CollectScoped(entries: map<Id, CacheEntry>, owner: string, fileTypes: seq<string>,
                       userName: Option<string>)
    returns (existingCache: map<Id, Option<int>>, hasExisting: bool)
    ensures existingCache == ExistingCache(entries, owner, fileTypes, userName)
    ensures hasExisting <==> existingCache.Keys != {}
    ensures hasExisting <==> exists id :: id in entries && InScope(entries[id], owner, fileTypes, userName)
  {
    existingCache := map[];
    hasExisting := false;
    var i := 0;
    while i < |fileTypes|
      invariant 0 <= i <= |fileTypes|
      invariant existingCache == ExistingCache(entries, owner, fileTypes[..i], userName)
      invariant hasExisting <==> existingCache.Keys != {}
    {
      ExistingCacheSnoc(entries, owner, fileTypes, userName, i);
      existingCache, hasExisting := ScanCursor(entries, Section(owner, fileTypes[i]), userName,
                                               existingCache, hasExisting);
      i := i + 1;
    }
    assert fileTypes[..i] == fileTypes;
    if hasExisting {
      var id :| id in existingCache.Keys;
      assert id in entries && InScope(entries[id], owner, fileTypes, userName);
    } else {
      forall id | id in entries
        ensures !InScope(entries[id], owner, fileTypes, userName)
      {
        assert id !in existingCache.Keys;
      }
    }
  }

  /** A record carrying a share name is never part of the principal's own (self) scan. */
  lemma SelfScopeExcludesShared(entries: map<Id, CacheEntry>, owner: string, fileTypes: seq<string>,
                                id: Id)
    requires id in entries && TruthyStr(entries[id].shareName)
    ensures id !in ExistingCache(entries, owner, fileTypes, None)
  {
  }

  /**
   * A record of a scanned section is part of a share scan exactly when its share name
   * matches the user name up to case.
   */
  lemma ShareScopeMatchesName(entries: map<Id, CacheEntry>, owner: string, fileTypes: seq<string>,
                              id: Id, userName: string)
    requires userName != ""
    requires id in entries && entries[id].section in Sections(owner, fileTypes)
    ensures id in ExistingCache(entries, owner, fileTypes, Some(userName)) <==>
      (entries[id].shareName.Some? && entries[id].shareName.value != "" &&
       ToLower(entries[id].shareName.value) == ToLower(userName))
  {
  }
}
