/**
 * Resource addressing: the cache id of an index file, the parsers of index-file paths,
 * per-user share directories and private-key paths. The gaia utilities and the worker
 * each keep their own copy of these; where the copies differ both are given.
 */
module Addressing {
  import opened Wrappers
  import opened JsValues

  /** publicKeyToAddress (after UTF-8 encoding where the source encodes): left uninterpreted. */
  type Hash = string -> string

  /** The string createIndexID hashes: `${publicKey}_${index}`, plus `_${userName}` for a truthy user name. */
  function IndexIdPreimage(publicKey: string, indexFile: string, userName: Option<string>): (r: string)
    ensures TruthyStr(userName) ==> r == publicKey + "_" + indexFile + "_" + userName.value
    ensures !TruthyStr(userName) ==> r == publicKey + "_" + indexFile
  {
    var base := publicKey + "_" + indexFile;
    if TruthyStr(userName) then base + "_" + userName.value else base
  }

  /** createIndexID: the cache id of an index file in a scope. */
  function IndexId(h: Hash, publicKey: string, indexFile: string, userName: Option<string>): string
  {
    h(IndexIdPreimage(publicKey, indexFile, userName))
  }

  /** An undefined and an empty user name address the same (self-scope) cache entry. */
  lemma UndefinedAndEmptyUserNameCoincide(h: Hash, publicKey: string, indexFile: string)
    ensures IndexId(h, publicKey, indexFile, None) == IndexId(h, publicKey, indexFile, Some(""))
  {
  }

  /** Splitting at the first '_': a prefix free of '_' is determined by the joined string. */
  lemma {:induction false} SplitAtSeparator(a: string, x: string, b: string, y: string)
    requires '_' !in a && '_' !in b
    requires a + "_" + x == b + "_" + y
    ensures a == b && x == y
  {
    var s := a + "_" + x;
    assert s[|a|] == '_' && s[|b|] == '_';
    assert forall i :: 0 <= i < |a| ==> s[i] == a[i];
    assert forall i :: 0 <= i < |b| ==> s[i] == b[i];
    assert |a| == |b|;
    assert a == s[..|a|] == b;
    assert x == s[|a| + 1..] == y;
  }

  /**
   * The preimage of createIndexID determines its inputs when neither the public key nor
   * the index path contains '_' (public keys are hex, index paths are `type/id.index`).
   * Without that premise the '_' separator is ambiguous: ("a_b", "c") and ("a", "b_c")
   * give the same preimage.
   */
  lemma {:induction false} PreimageInjective(pk1: string, f1: string, u1: Option<string>,
                                             pk2: string, f2: string, u2: Option<string>)
    requires '_' !in pk1 && '_' !in pk2 && '_' !in f1 && '_' !in f2
    requires IndexIdPreimage(pk1, f1, u1) == IndexIdPreimage(pk2, f2, u2)
    ensures pk1 == pk2 && f1 == f2
    ensures TruthyStr(u1) <==> TruthyStr(u2)
    ensures TruthyStr(u1) ==> u1.value == u2.value
  {
    var r1 := if TruthyStr(u1) then f1 + "_" + u1.value else f1;
    var r2 := if TruthyStr(u2) then f2 + "_" + u2.value else f2;
    assert IndexIdPreimage(pk1, f1, u1) == pk1 + "_" + r1;
    assert IndexIdPreimage(pk2, f2, u2) == pk2 + "_" + r2;
    SplitAtSeparator(pk1, r1, pk2, r2);
    if TruthyStr(u1) && TruthyStr(u2) {
      SplitAtSeparator(f1, u1.value, f2, u2.value);
    } else if TruthyStr(u1) {
      assert false;
    } else if TruthyStr(u2) {
      assert false;
    }
  }

  /** The index path of a resource: `${type}/${id}.index` (shareFile, addToGroup). */
  function IndexPath(fileType: string, id: string): string
  {
    fileType + "/" + id + ".index"
  }

  /**
   * getFileIDFromIndexFileName (and the worker's getIDFromIndexFileName): the text after
   * the last '/', with the first ".index" removed; null when there is no '/'.
   */
  function FileIdFromIndexPath(fileName: string): (r: Option<string>)
    ensures r.None? <==> '/' !in fileName
    ensures r.Some? ==> '/' !in r.value
  {
    var i := LastIndexOfChar(fileName, '/');
    if i >= 0 then
      var tail := fileName[i + 1..];
      ReplaceFirstSplit(tail, ".index", "");
      Some(ReplaceFirst(tail, ".index", ""))
    else None
  }

  /** getTypeFromIndexFileName: the text before the first '/', or "" when there is none. */
  function TypeFromIndexPath(fileName: string): (r: string)
    ensures '/' !in r
    ensures '/' in fileName ==> |r| < |fileName| && fileName[..|r| + 1] == r + "/"
    ensures '/' !in fileName ==> r == ""
  {
    var i := IndexOfChar(fileName, '/');
    if i >= 0 then fileName[..i] else ""
  }

  /** Helper for the round trip: ".index" does not occur in a text free of '.'. */
  lemma NoIndexSuffixIn(id: string, j: int)
    requires '.' !in id
    requires 0 <= j < |id|
    ensures !OccursAt(id + ".index", ".index", j)
  {
    var s := id + ".index";
    assert s[j] == id[j] && id[j] != '.';
  }

  /** The last '/' of an index path `type/id.index` is the one after the type. */
  lemma {:induction false} LastSlashOfIndexPath(fileType: string, id: string)
    requires '/' !in id
    ensures LastIndexOfChar(IndexPath(fileType, id), '/') == |fileType|
    ensures IndexPath(fileType, id)[|fileType| + 1..] == id + ".index"
  {
    var p := IndexPath(fileType, id);
    var tail := id + ".index";
    assert p == fileType + "/" + tail;
    assert '/' !in tail;
    assert p[|fileType|] == '/';
    var i := LastIndexOfChar(p, '/');
    assert i >= |fileType|;
    assert forall j :: |fileType| < j < |p| ==> p[j] == tail[j - |fileType| - 1];
    assert i <= |fileType|;
  }

  /** The first '/' of `type/rest` is the one after the type. */
  lemma {:induction false} FirstSlashAfterType(fileType: string, rest: string)
    requires '/' !in fileType
    ensures IndexOfChar(fileType + "/" + rest, '/') == |fileType|
  {
    var p := fileType + "/" + rest;
    assert p[|fileType|] == '/';
    var k := IndexOfChar(p, '/');
    assert k <= |fileType|;
    assert forall j :: 0 <= j < |fileType| ==> p[j] == fileType[j];
    assert k >= |fileType|;
  }

  /** Removing the first ".index" from `id.index` gives the id back when the id has no '.'. */
  lemma {:induction false} StripIndexSuffix(id: string)
    requires '.' !in id
    ensures ReplaceFirst(id + ".index", ".index", "") == id
  {
    var tail := id + ".index";
    assert OccursAt(tail, ".index", |id|) by {
      assert tail[|id|..|id| + 6] == ".index";
    }
    forall j | 0 <= j < |id| ensures !OccursAt(tail, ".index", j) {
      NoIndexSuffixIn(id, j);
    }
    assert IndexOf(tail, ".index") == |id|;
    assert tail[..|id|] == id;
    assert tail[|id| + 6..] == "";
  }

  /**
   * Building an index path and parsing it back gives the resource id and type, provided
   * the type has no '/' and the id has neither '/' nor '.' (ids are hash addresses).
   */
  lemma {:induction false} IndexPathRoundTrip(fileType: string, id: string)
    requires '/' !in fileType && '/' !in id && '.' !in id
    ensures FileIdFromIndexPath(IndexPath(fileType, id)) == Some(id)
    ensures TypeFromIndexPath(IndexPath(fileType, id)) == fileType
  {
    IndexPathIdRoundTrip(fileType, id);
    IndexPathTypeRoundTrip(fileType, id);
  }

  /** The id half of the round trip: the text after the last '/', without ".index". */
  lemma {:induction false} IndexPathIdRoundTrip(fileType: string, id: string)
    requires '/' !in id && '.' !in id
    ensures FileIdFromIndexPath(IndexPath(fileType, id)) == Some(id)
  {
    LastSlashOfIndexPath(fileType, id);
    StripIndexSuffix(id);
  }

  /** The type half of the round trip: the text before the first '/'. */
  lemma {:induction false} IndexPathTypeRoundTrip(fileType: string, id: string)
    requires '/' !in fileType
    ensures TypeFromIndexPath(IndexPath(fileType, id)) == fileType
  {
    var p := IndexPath(fileType, id);
    assert p == fileType + "/" + (id + ".index");
    FirstSlashAfterType(fileType, id + ".index");
    assert p[..|fileType|] == fileType;
  }

  /** getUserDirectory: the per-principal share root `share/${publicKeyToAddress(publicKey)}/`. */
  function UserDirectory(addr: Hash, publicKey: string): (r: string)
    ensures |r| > 0 && EndsWith(r, "/")
  {
    "share/" + addr(publicKey) + "/"
  }

  /** getPrivateKeyFileName in the gaia utilities: `${root}${type}/${id}/private.key`. */
  function PrivateKeyFileName(root: string, id: string, fileType: string): string
  {
    root + fileType + "/" + id + "/private.key"
  }

  /** The worker's getPrivateKeyFileName: the share root of `publicKey` when a user name is given. */
  function WorkerPrivateKeyFileName(addr: Hash, publicKey: string, id: string, fileType: string,
                                    userName: Option<string>): string
  {
    var root := if TruthyStr(userName) then UserDirectory(addr, publicKey) else "";
    root + fileType + "/" + id + "/private.key"
  }

  /** The worker's copy of the key path agrees with the utilities' one given the same root. */
  lemma WorkerKeyFileAgrees(addr: Hash, publicKey: string, id: string, fileType: string,
                            userName: Option<string>)
    ensures WorkerPrivateKeyFileName(addr, publicKey, id, fileType, userName)
         == PrivateKeyFileName(if TruthyStr(userName) then UserDirectory(addr, publicKey) else "", id, fileType)
  {
  }

  /** A private-key path keeps the type as its first segment when the root is empty. */
  lemma {:induction false} PrivateKeyFileType(id: string, fileType: string)
    requires '/' !in fileType
    ensures TypeFromIndexPath(PrivateKeyFileName("", id, fileType)) == fileType
  {
    var p := PrivateKeyFileName("", id, fileType);
    assert p == fileType + "/" + (id + "/private.key");
    FirstSlashAfterType(fileType, id + "/private.key");
    assert p[..|fileType|] == fileType;
  }
}
