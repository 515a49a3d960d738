/**
 * The small read-modify-write editors of the app: adding files to groups and removing
 * them (the group index maps `type/id.index` to the file owner's user name), the share
 * index (lower-cased user name to user name), the group collection, and the share names
 * of a selection.
 *
 * Each editor is handed the document as its read returned it (getGroupIndex, getShares
 * and getGroups give an empty object when the read fails, None stands for a document
 * that parsed to null) and yields the documents it writes, in order.
 */
module Editors {
  import opened Wrappers
  import opened JsValues
  import opened Dicts
  import opened Indexes
  import opened Addressing
  import opened MasterIndexUpdate

  /** A saveGroupIndex call: `groups/${groupId}.index` is written with `index`. */
  datatype GroupSave = GroupSave(groupId: string, index: GroupIndex)

  /** The group-index key of a file: `${type}/${id}.index`. */
  function GroupKey(m: FileMeta): string
  {
    IndexPath(m.fileType, m.id)
  }

  function GroupKeys(metas: seq<FileMeta>): (r: set<string>)
    ensures forall k :: k in r <==> exists i :: 0 <= i < |metas| && GroupKey(metas[i]) == k
  {
    if metas == [] then {}
    else
      var r := GroupKeys(metas[..|metas| - 1]) + {GroupKey(metas[|metas| - 1])};
      assert forall i :: 0 <= i < |metas| - 1 ==> metas[..|metas| - 1][i] == metas[i];
      r
  }

  // ---- addToGroup ----

  /** The user name of the last file of `metas` whose key is `k`. */
  function LastOwner(metas: seq<FileMeta>, k: string): Option<string>
  {
    if metas == [] then None
    else if GroupKey(metas[|metas| - 1]) == k then metas[|metas| - 1].userName
    else LastOwner(metas[..|metas| - 1], k)
  }

  /** `groupIndex[indexFile] = metaData.userName` for each file in turn. */
  function AddFiles(g: GroupIndex, metas: seq<FileMeta>): GroupIndex
  {
    if metas == [] then g
    else
      var m := metas[|metas| - 1];
      var r: GroupIndex := Set(AddFiles(g, metas[..|metas| - 1]), GroupKey(m), m.userName);
      r
  }

  /**
   * After adding, the group holds the files' keys besides its own, each added key maps to
   * the owner of the last file with that key, and every other key keeps its value.
   */
  lemma {:induction false} AddFilesLookup(g: GroupIndex, metas: seq<FileMeta>, k: string)
    ensures var r := AddFiles(g, metas);
      (k in r.vals <==> k in g.vals || k in GroupKeys(metas)) &&
      (k in GroupKeys(metas) ==> r.vals[k] == LastOwner(metas, k)) &&
      (k !in GroupKeys(metas) ==> Get(r, k) == Get(g, k))
  {
    if metas != [] {
      AddFilesLookup(g, metas[..|metas| - 1], k);
    }
  }

  /** removeFromGroup after addToGroup with the same files leaves what removing alone leaves. */
  lemma {:induction false} RemoveUndoesAdd(g: GroupIndex, metas: seq<FileMeta>)
    ensures RemoveAll(AddFiles(g, metas), GroupKeys(metas)) == RemoveAll(g, GroupKeys(metas))
  {
    if metas != [] {
      var init := metas[..|metas| - 1];
      var m := metas[|metas| - 1];
      var a := AddFiles(g, init);
      var all := GroupKeys(metas);
      assert all == GroupKeys(init) + all;
      RemoveAllAfterSet(a, GroupKey(m), m.userName, all);
      RemoveAllTwice(a, GroupKeys(init), all);
      RemoveUndoesAdd(g, init);
      RemoveAllTwice(g, GroupKeys(init), all);
    }
  }

  /** The saves of addToGroup: each readable group, in order, with all the files added. */
  function AddToGroupSaves(metas: seq<FileMeta>, groupIds: seq<string>, read: string -> Option<GroupIndex>)
    : seq<GroupSave>
  {
    if groupIds == [] then []
    else
      var gid := groupIds[|groupIds| - 1];
      var rest := AddToGroupSaves(metas, groupIds[..|groupIds| - 1], read);
      if read(gid).Some? then rest + [GroupSave(gid, AddFiles(read(gid).value, metas))] else rest
  }

  /** The inner loop of addToGroup over the files. */
  method AddFilesLoop(g: GroupIndex, metas: seq<FileMeta>) returns (r: GroupIndex)
    ensures r == AddFiles(g, metas)
  {
    r := g;
    var j := 0;
    while j < |metas|
      invariant 0 <= j <= |metas|
      invariant r == AddFiles(g, metas[..j])
    {
      assert metas[..j + 1][..j] == metas[..j];
      var m := metas[j];
      r := Set(r, IndexPath(m.fileType, m.id), m.userName);
      j := j + 1;
    }
    assert metas[..j] == metas;
  }

  /**
   * addToGroup: nothing without group ids or files; otherwise each group whose index
   * reads back gets every file's key mapped to its owner and is saved.
   */
  method AddToGroup(metas: seq<FileMeta>, groupIds: Option<seq<string>>, read: string -> Option<GroupIndex>)
    returns (saves: seq<GroupSave>)
    ensures groupIds.None? || |groupIds.value| == 0 || |metas| == 0 ==> saves == []
    ensures groupIds.Some? && |groupIds.value| > 0 && |metas| > 0 ==>
      saves == AddToGroupSaves(metas, groupIds.value, read)
  {
    saves := [];
    if groupIds.Some? && |groupIds.value| > 0 && |metas| > 0 {
      var ids := groupIds.value;
      var i := 0;
      while i < |ids|
        invariant 0 <= i <= |ids|
        invariant saves == AddToGroupSaves(metas, ids[..i], read)
      {
        assert ids[..i + 1][..i] == ids[..i];
        var groupIndex := read(ids[i]);
        if groupIndex.Some? {
          var updated := AddFilesLoop(groupIndex.value, metas);
          saves := saves + [GroupSave(ids[i], updated)];
        }
        i := i + 1;
      }
      assert ids[..i] == ids;
    }
  }

  /** addToGroup saves exactly the readable groups among the ids, each holding every file. */
  lemma {:induction false} AddToGroupSavesEach(metas: seq<FileMeta>, groupIds: seq<string>,
                                               read: string -> Option<GroupIndex>)
    ensures var saves := AddToGroupSaves(metas, groupIds, read);
      (forall i :: 0 <= i < |saves| ==>
         saves[i].groupId in groupIds && read(saves[i].groupId).Some? &&
         saves[i].index == AddFiles(read(saves[i].groupId).value, metas)) &&
      (forall gid :: gid in groupIds && read(gid).Some? ==>
         exists i :: 0 <= i < |saves| && saves[i].groupId == gid)
  {
    if groupIds != [] {
      var init := groupIds[..|groupIds| - 1];
      AddToGroupSavesEach(metas, init, read);
      assert groupIds == init + [groupIds[|groupIds| - 1]];
      var saves := AddToGroupSaves(metas, groupIds, read);
      var rest := AddToGroupSaves(metas, init, read);
      forall gid | gid in groupIds && read(gid).Some?
        ensures exists i :: 0 <= i < |saves| && saves[i].groupId == gid
      {
        if gid in init {
          var i :| 0 <= i < |rest| && rest[i].groupId == gid;
          assert saves[i] == rest[i];
        } else {
          assert saves[|saves| - 1].groupId == gid;
        }
      }
    }
  }

  // ---- removeFromGroup ----

  /**
   * removeFromGroup: when the group index reads back and there are files, every file's
   * key is deleted and the group is saved; otherwise nothing is written.
   */
  method RemoveFromGroup(metas: seq<FileMeta>, groupId: string, read: string -> Option<GroupIndex>)
    returns (save: Option<GroupSave>)
    ensures save.Some? <==> read(groupId).Some? && |metas| > 0
    ensures save.Some? ==> save.value == GroupSave(groupId, RemoveAll(read(groupId).value, GroupKeys(metas)))
  {
    save := None;
    var groupIndex := read(groupId);
    if groupIndex.Some? && |metas| > 0 {
      var g: GroupIndex := groupIndex.value;
      RemoveNothing(g);
      var i := 0;
      while i < |metas|
        invariant 0 <= i <= |metas|
        invariant g == RemoveAll(groupIndex.value, GroupKeys(metas[..i]))
      {
        assert metas[..i + 1][..i] == metas[..i];
        RemoveAllThenRemove(groupIndex.value, GroupKeys(metas[..i]), GroupKey(metas[i]));
        g := Remove(g, IndexPath(metas[i].fileType, metas[i].id));
        i := i + 1;
      }
      assert metas[..i] == metas;
      save := Some(GroupSave(groupId, g));
    }
  }

  // ---- updateShares ----

  /** The share index: lower-cased user name to the user name as given. */
  type ShareIndex = d: Dict<Option<string>> | Valid(d) witness Dict([], map[])

  function LowerNames(names: seq<string>): (r: set<string>)
    ensures forall k :: k in r <==> exists i :: 0 <= i < |names| && ToLower(names[i]) == k
  {
    if names == [] then {}
    else
      var r := LowerNames(names[..|names| - 1]) + {ToLower(names[|names| - 1])};
      assert forall i :: 0 <= i < |names| - 1 ==> names[..|names| - 1][i] == names[i];
      r
  }

  /** `shares[userName.toLowerCase()] = userName` for each name in turn. */
  function AddShares(shares: ShareIndex, names: seq<string>): ShareIndex
  {
    if names == [] then shares
    else
      var n := names[|names| - 1];
      var r: ShareIndex := Set(AddShares(shares, names[..|names| - 1]), ToLower(n), Some(n));
      r
  }

  /** The share index updateShares writes: the names deleted or added, by lower-cased key. */
  function UpdatedShares(shares: ShareIndex, names: seq<string>, deleteFlag: bool): ShareIndex
  {
    if deleteFlag then RemoveAll(shares, LowerNames(names)) else AddShares(shares, names)
  }

  /** updateShares: edit the share index name by name, then write it (even when nothing changed). */
  method UpdateShares(shares: ShareIndex, names: seq<string>, deleteFlag: bool) returns (written: ShareIndex)
    ensures written == UpdatedShares(shares, names, deleteFlag)
  {
    written := shares;
    RemoveNothing(shares);
    var i := 0;
    while i < |names|
      invariant 0 <= i <= |names|
      invariant written == UpdatedShares(shares, names[..i], deleteFlag)
    {
      assert names[..i + 1][..i] == names[..i];
      if deleteFlag {
        RemoveAllThenRemove(shares, LowerNames(names[..i]), ToLower(names[i]));
        written := Remove(written, ToLower(names[i]));
      } else {
        written := Set(written, ToLower(names[i]), Some(names[i]));
      }
      i := i + 1;
    }
    assert names[..i] == names;
  }

  /**
   * Adding keys every name by its lower-cased form, holding a name that lower-cases to the
   * key; keys of other names are untouched.
   */
  lemma {:induction false} AddSharesLookup(shares: ShareIndex, names: seq<string>, k: string)
    ensures var r := AddShares(shares, names);
      (k in r.vals <==> k in shares.vals || k in LowerNames(names)) &&
      (k in LowerNames(names) ==> r.vals[k].Some? && ToLower(r.vals[k].value) == k) &&
      (k !in LowerNames(names) ==> Get(r, k) == Get(shares, k))
  {
    if names != [] {
      AddSharesLookup(shares, names[..|names| - 1], k);
    }
  }

  /** Deleting names after adding them leaves what deleting alone leaves, case-insensitively. */
  lemma {:induction false} DeleteUndoesAddShares(shares: ShareIndex, names: seq<string>, others: seq<string>)
    requires LowerNames(names) <= LowerNames(others)
    ensures UpdatedShares(UpdatedShares(shares, names, false), others, true) == UpdatedShares(shares, others, true)
  {
    if names != [] {
      var init := names[..|names| - 1];
      var n := names[|names| - 1];
      var all := LowerNames(others);
      var a := AddShares(shares, init);
      assert LowerNames(init) <= all;
      RemoveAllAfterSet(a, ToLower(n), Some(n), all);
      DeleteUndoesAddShares(shares, init, others);
    }
  }

  // ---- updateGroup ----

  /** A group of the collection; the fields other than its id are carried as they are. */
  datatype Group = Group(id: string, fields: string)

  /** The group collection ("group-index"): group id to group. */
  type GroupCollection = d: Dict<Group> | Valid(d) witness Dict([], map[])

  datatype GroupWrite = DeleteGroupIndex(path: string) | PutGroups(groups: Option<GroupCollection>)

  /**
   * updateGroup: the collection with the group deleted or set, the group's own index file
   * deleted (also when the group is only updated), then the collection written; failures
   * of either write are swallowed.
   */
  function UpdateGroupWrites(groups: Option<GroupCollection>, group: Group, deleteFlag: bool): (w: seq<GroupWrite>)
    ensures |w| == 2 && w[0] == DeleteGroupIndex(GroupIndexFileName(group.id)) && w[1].PutGroups?
    ensures w[1].groups.Some? <==> groups.Some?
    ensures groups.Some? && deleteFlag ==> w[1].groups.value.vals == groups.value.vals - {group.id}
    ensures groups.Some? && !deleteFlag ==> w[1].groups.value.vals == groups.value.vals[group.id := group]
  {
    var updated: Option<GroupCollection> :=
      if groups.None? then None
      else if deleteFlag then Some(Remove(groups.value, group.id))
      else Some(Set(groups.value, group.id, group));
    [DeleteGroupIndex(GroupIndexFileName(group.id)), PutGroups(updated)]
  }

  /** Deleting a group after setting it leaves the collection deleting alone leaves. */
  lemma DeleteUndoesSetGroup(groups: GroupCollection, group: Group)
    ensures var stored := UpdateGroupWrites(Some(groups), group, false)[1].groups.value;
      UpdateGroupWrites(Some(stored), group, true)[1].groups == UpdateGroupWrites(Some(groups), group, true)[1].groups
  {
    RemoveAllAfterSet(groups, group.id, group, {group.id});
  }

  // ---- getShareNames ----

  /** One selected share: its `value` may be missing, and the entry itself may be null (None). */
  datatype SelectedShare = SelectedShare(value: Option<string>)

  /** The truthy values of the selection, in order. */
  function TruthyValues(selected: seq<Option<SelectedShare>>): (r: seq<string>)
    ensures forall x :: x in r ==> x != ""
    ensures forall i :: 0 <= i < |selected| && selected[i].Some? && TruthyStr(selected[i].value.value) ==>
      selected[i].value.value.value in r
  {
    if selected == [] then []
    else
      var x := selected[|selected| - 1];
      var rest := TruthyValues(selected[..|selected| - 1]);
      assert forall i :: 0 <= i < |selected| - 1 ==> selected[..|selected| - 1][i] == selected[i];
      if x.Some? && TruthyStr(x.value.value) then rest + [x.value.value.value] else rest
  }

  /**
   * getShareNames: the truthy values of a selection, or undefined (None) when there are
   * none, so a non-empty array or nothing; never the empty array that shareLookup would
   * treat as matching nothing.
   */
  method GetShareNames(selected: Option<seq<Option<SelectedShare>>>) returns (shareNames: Option<seq<string>>)
    ensures shareNames.Some? ==> |shareNames.value| > 0
    ensures shareNames.Some? <==> selected.Some? && |TruthyValues(selected.value)| > 0
    ensures shareNames.Some? ==> shareNames.value == TruthyValues(selected.value)
  {
    shareNames := None;
    if selected.Some? {
      var xs := selected.value;
      var arr: seq<string> := [];
      var i := 0;
      while i < |xs|
        invariant 0 <= i <= |xs|
        invariant arr == TruthyValues(xs[..i])
      {
        assert xs[..i + 1][..i] == xs[..i];
        if xs[i].Some? && TruthyStr(xs[i].value.value) {
          arr := arr + [xs[i].value.value.value];
        }
        i := i + 1;
      }
      assert xs[..i] == xs;
      if |arr| > 0 {
        shareNames := Some(arr);
      }
    }
  }
}
