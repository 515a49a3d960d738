/**
 * The messages exchanged with the gaia worker: the requests the app posts to it (absent
 * fields are None) and the replies it posts back.
 */
module Messages {
  import opened Wrappers
  import opened Indexes

  /**
   * The session a `load` carries: whether its JSON parses, whether the session built from
   * it is signed in, and whether its user data holds an app private key.
   */
  datatype SessionData = SessionData(parses: bool, signedIn: bool, appKey: bool)

  /** A request to the worker, by its `message` field. */
  datatype Request =
    | Load(fileTypes: seq<string>, session: SessionData)
    | CacheIndexes(indexFiles: Option<seq<string>>)
    | RemoveCache(indexFile: Option<string>)
    | UpdateCache(indexFile: Option<string>)
    | DeleteDb
    | ValidateGroupEntries(groupId: Option<string>, missing: seq<GroupEntry>)
    | Other(name: string)
}
