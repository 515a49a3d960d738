/**
 * The documents the program keeps in the remote store, as far as the index bookkeeping
 * reads them: the master index and the metadata of one index file.
 */
module Indexes {
  import opened Wrappers
  import opened Dicts

  /**
   * The master index: index-file path to the `lastUpdatedUTC` of the file, null when the
   * entry was rebuilt from a listing and its time is unknown.
   */
  type MasterIndex = d: Dict<Option<int>> | Valid(d) witness Dict([], map[])

  /**
   * The parsed metadata of one index file, as far as the cache uses it: the JSON text, its
   * `type`, its `lastUpdatedUTC`, and whether it carries a non-null `mediaType` (the
   * old format).
   */
  datatype MetaDoc = MetaDoc(json: string, fileType: string, lastUpdatedUTC: Option<int>, hasMediaType: bool)

  /** The file name of a master index under `root` (empty for the principal's own). */
  function MasterIndexFileName(root: string): string
  {
    root + "master-index"
  }

  /**
   * A group index (`groups/${id}.index`): index-file path to the user name of the file's
   * owner, as addToGroup stores it.
   */
  type GroupIndex = d: Dict<Option<string>> | Valid(d) witness Dict([], map[])

  /** The file name of a group's index. */
  function GroupIndexFileName(groupId: string): string
  {
    "groups/" + groupId + ".index"
  }

  /** An entry of a group whose record getCacheEntriesFromGroup did not find in the cache. */
  datatype GroupEntry = GroupEntry(groupId: string, indexFile: string, userName: Option<string>)
}
