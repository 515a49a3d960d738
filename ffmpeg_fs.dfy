/**
 * The in-memory file system of the WebAssembly build of ffmpeg, as the web client sees it:
 * the root directory is listed in order, entries are removed and written by name, and a run
 * of the ffmpeg program rewrites the directory in a way the client does not control.
 */
module FFmpegFs {
  type Bytes = seq<bv8>

  /** One entry of the root directory: its name and its contents. */
  datatype FsEntry = FsEntry(name: string, data: Bytes)

  /** What a run of the ffmpeg program does to the root directory, given its arguments. */
  type Tool = (seq<FsEntry>, seq<string>) -> seq<FsEntry>

  /** The root entries the emulated system provides itself (isFFMpegWasmSystemFile). */
  predicate IsSystemFile(name: string)
  {
    name == "." || name == ".." || name == "tmp" || name == "home" || name == "dev" || name == "proc"
  }

  /** The directory listing `ls("/")`: the names, in order. */
  function Names(es: seq<FsEntry>): (r: seq<string>)
    ensures |r| == |es|
    ensures forall i :: 0 <= i < |es| ==> r[i] == es[i].name
  {
    if es == [] then [] else [es[0].name] + Names(es[1..])
  }

  /** A directory lists each name once. */
  predicate DistinctNames(es: seq<FsEntry>)
  {
    forall i, j :: 0 <= i < j < |es| ==> es[i].name != es[j].name
  }

  /** Running the program leaves a well-formed directory. */
  ghost predicate KeepsDistinct(tool: Tool)
  {
    forall es, args :: DistinctNames(es) ==> DistinctNames(tool(es, args))
  }

  lemma DistinctCons(x: FsEntry, t: seq<FsEntry>)
    ensures DistinctNames([x] + t) <==> DistinctNames(t) && forall e :: e in t ==> e.name != x.name
  {
    var s := [x] + t;
    assert forall k :: 0 <= k < |t| ==> s[k + 1] == t[k];
    if DistinctNames(t) && forall e :: e in t ==> e.name != x.name {
      forall i, j | 0 <= i < j < |s|
        ensures s[i].name != s[j].name
      {
        if i > 0 {
          assert s[i] == t[i - 1] && s[j] == t[j - 1];
        } else {
          assert s[j] == t[j - 1] && s[j] in t;
        }
      }
    }
    if DistinctNames(s) {
      forall e | e in t
        ensures e.name != x.name
      {
        var k :| 0 <= k < |t| && t[k] == e;
        assert s[0] == x && s[k + 1] == e;
      }
    }
  }

  /** The entries whose names are not in `gone`, in their order: `remove` of each such name. */
  function Drop(es: seq<FsEntry>, gone: set<string>): (r: seq<FsEntry>)
    ensures forall e :: e in r <==> e in es && e.name !in gone
  {
    if es == [] then [] else (if es[0].name in gone then [] else [es[0]]) + Drop(es[1..], gone)
  }

  lemma {:induction false} DropKeepsDistinct(es: seq<FsEntry>, gone: set<string>)
    requires DistinctNames(es)
    ensures DistinctNames(Drop(es, gone))
  {
    if es != [] {
      assert es == [es[0]] + es[1..];
      DistinctCons(es[0], es[1..]);
      DropKeepsDistinct(es[1..], gone);
      if es[0].name !in gone {
        DistinctCons(es[0], Drop(es[1..], gone));
      }
    }
  }

  lemma {:induction false} DropNothing(es: seq<FsEntry>)
    ensures Drop(es, {}) == es
  {
    if es != [] {
      DropNothing(es[1..]);
      assert es == [es[0]] + es[1..];
    }
  }

  /** Removing names one set after another removes their union. */
  lemma {:induction false} DropTwice(es: seq<FsEntry>, a: set<string>, b: set<string>)
    ensures Drop(Drop(es, a), b) == Drop(es, a + b)
  {
    if es != [] {
      var x, t := es[0], es[1..];
      var u := Drop(t, a);
      DropTwice(t, a, b);
      if x.name in a {
        assert Drop(es, a) == u;
        assert Drop(es, a + b) == Drop(t, a + b);
      } else {
        var v := [x] + u;
        assert Drop(es, a) == v;
        assert v[0] == x && v[1..] == u;
        assert Drop(v, b) == (if x.name in b then [] else [x]) + Drop(u, b);
        assert Drop(es, a + b) == (if x.name in b then [] else [x]) + Drop(t, a + b);
      }
    }
  }

  /** The root directory once clearFFMpegFileSystem is done: the system entries, in order. */
  function Cleared(es: seq<FsEntry>): seq<FsEntry>
  {
    if es == [] then [] else (if IsSystemFile(es[0].name) then [es[0]] else []) + Cleared(es[1..])
  }

  /** Clearing keeps exactly the system entries. */
  lemma {:induction false} ClearedMembers(es: seq<FsEntry>)
    ensures forall e :: e in Cleared(es) <==> e in es && IsSystemFile(e.name)
  {
    if es != [] {
      ClearedMembers(es[1..]);
      assert es == [es[0]] + es[1..];
    }
  }

  /** Clearing twice clears nothing more. */
  lemma {:induction false} ClearedIdempotent(es: seq<FsEntry>)
    ensures Cleared(Cleared(es)) == Cleared(es)
  {
    if es != [] {
      ClearedIdempotent(es[1..]);
      if IsSystemFile(es[0].name) {
        assert Cleared(es) == [es[0]] + Cleared(es[1..]);
        assert Cleared(es)[1..] == Cleared(es[1..]);
      } else {
        assert Cleared(es) == Cleared(es[1..]);
      }
    }
  }

  /** Removing every non-system name, and only those, is clearing. */
  lemma {:induction false} DropAllNonSystem(es: seq<FsEntry>, gone: set<string>)
    requires forall n :: n in gone ==> !IsSystemFile(n)
    requires forall i :: 0 <= i < |es| && !IsSystemFile(es[i].name) ==> es[i].name in gone
    ensures Drop(es, gone) == Cleared(es)
  {
    if es != [] {
      assert forall i :: 1 <= i < |es| ==> es[1..][i - 1] == es[i];
      DropAllNonSystem(es[1..], gone);
    }
  }

  /** writeFile: an existing entry keeps its place and gets the new contents; a new one is appended. */
  function Written(es: seq<FsEntry>, name: string, data: Bytes): (r: seq<FsEntry>)
    ensures FsEntry(name, data) in r
    ensures forall e :: e in r ==> e in es || e == FsEntry(name, data)
    ensures forall e: FsEntry :: e.name != name ==> (e in r <==> e in es)
  {
    if es == [] then [FsEntry(name, data)]
    else if es[0].name == name then [FsEntry(name, data)] + es[1..]
    else [es[0]] + Written(es[1..], name, data)
  }

  lemma {:induction false} WrittenKeepsDistinct(es: seq<FsEntry>, name: string, data: Bytes)
    requires DistinctNames(es)
    ensures DistinctNames(Written(es, name, data))
  {
    if es != [] {
      assert es == [es[0]] + es[1..];
      DistinctCons(es[0], es[1..]);
      if es[0].name == name {
        DistinctCons(FsEntry(name, data), es[1..]);
      } else {
        WrittenKeepsDistinct(es[1..], name, data);
        DistinctCons(es[0], Written(es[1..], name, data));
      }
    }
  }

  /** The contents stored under a listed name. */
  function DataOf(es: seq<FsEntry>, name: string): (r: Bytes)
    requires name in Names(es)
    ensures FsEntry(name, r) in es
  {
    if es[0].name == name then es[0].data
    else
      assert Names(es)[1..] == Names(es[1..]);
      DataOf(es[1..], name)
  }

  /** In a directory, the entry listed at position i is the one found under its name. */
  lemma EntryByName(es: seq<FsEntry>, i: int, d: Bytes)
    requires DistinctNames(es) && 0 <= i < |es|
    requires FsEntry(es[i].name, d) in es
    ensures es[i] == FsEntry(es[i].name, d)
  {
    var k :| 0 <= k < |es| && es[k] == FsEntry(es[i].name, d);
    assert k == i;
  }

  /** The input files runFFMpegWasm writes before running: the input, then key.info and key.bin. */
  function Staged(es: seq<FsEntry>, inputName: string, inputData: Bytes,
                  keyInfoData: Bytes, hasKeyInfo: bool, keyData: Bytes, hasKey: bool): seq<FsEntry>
  {
    var s1 := Written(es, inputName, inputData);
    var s2 := if hasKeyInfo then Written(s1, "key.info", keyInfoData) else s1;
    if hasKey then Written(s2, "key.bin", keyData) else s2
  }

  /** The entries runFFMpegWasm reports as output: none of the system, key or input files. */
  predicate IsOutput(name: string, inputName: string)
  {
    !IsSystemFile(name) && name != "key.info" && name != "key.bin" && name != inputName
  }

  /** The MEMFS list runFFMpegWasm returns: the output entries, in listing order. */
  function Outputs(es: seq<FsEntry>, inputName: string): seq<FsEntry>
  {
    if es == [] then []
    else
      Outputs(es[..|es| - 1], inputName)
      + (if IsOutput(es[|es| - 1].name, inputName) then [es[|es| - 1]] else [])
  }

  /** The output list holds exactly the output entries of the directory. */
  lemma {:induction false} OutputsMembers(es: seq<FsEntry>, inputName: string)
    ensures forall e :: e in Outputs(es, inputName) <==> e in es && IsOutput(e.name, inputName)
  {
    if es != [] {
      OutputsMembers(es[..|es| - 1], inputName);
      assert es == es[..|es| - 1] + [es[|es| - 1]];
    }
  }

  /** The output list follows the listing order: it distributes over concatenation. */
  lemma {:induction false} OutputsConcat(a: seq<FsEntry>, b: seq<FsEntry>, inputName: string)
    ensures Outputs(a + b, inputName) == Outputs(a, inputName) + Outputs(b, inputName)
  {
    if b == [] {
      assert a + b == a;
    } else {
      var c := a + b;
      assert c[..|c| - 1] == a + b[..|b| - 1];
      OutputsConcat(a, b[..|b| - 1], inputName);
    }
  }

  /** The files the client itself writes never come back as output. */
  lemma StagedFilesNotOutputs(es: seq<FsEntry>, inputName: string, d: Bytes)
    ensures FsEntry(inputName, d) !in Outputs(es, inputName)
    ensures FsEntry("key.info", d) !in Outputs(es, inputName)
    ensures FsEntry("key.bin", d) !in Outputs(es, inputName)
  {
    OutputsMembers(es, inputName);
  }

  /** The non-system names among those listed. */
  ghost function NonSystem(names: seq<string>): set<string>
  {
    set n | n in names && !IsSystemFile(n)
  }

  /** A name comes once in the listing, so removing the names before it leaves it listed. */
  lemma StillListed(es: seq<FsEntry>, i: int, gone: set<string>)
    requires DistinctNames(es) && 0 <= i < |es|
    requires gone == NonSystem(Names(es)[..i])
    ensures es[i].name in Names(Drop(es, gone))
  {
    var r := Drop(es, gone);
    assert es[i] in r;
    var j :| 0 <= j < |r| && r[j] == es[i];
    assert Names(r)[j] == es[i].name;
  }

  lemma NonSystemStep(names: seq<string>, i: int)
    requires 0 <= i < |names|
    ensures NonSystem(names[..i + 1])
      == NonSystem(names[..i]) + (if IsSystemFile(names[i]) then {} else {names[i]})
  {
    assert names[..i + 1] == names[..i] + [names[i]];
  }

  /** Removing every non-system name of the listing is clearing. */
  lemma ClearByNames(es: seq<FsEntry>)
    ensures Drop(es, NonSystem(Names(es)[..|es|])) == Cleared(es)
  {
    var gone := NonSystem(Names(es)[..|es|]);
    assert Names(es)[..|es|] == Names(es);
    forall i | 0 <= i < |es| && !IsSystemFile(es[i].name)
      ensures es[i].name in gone
    {
      assert Names(es)[i] == es[i].name;
    }
    DropAllNonSystem(es, gone);
  }

  /** The ffmpeg instance the client drives, with its file system. */
  class Instance {
    /** The root directory of the in-memory file system, in listing order. */
    var root: seq<FsEntry>

    ghost predicate Valid()
      reads this
    {
      DistinctNames(root)
    }

    /** `ls("/")`. */
    method Ls() returns (names: seq<string>)
      ensures names == Names(root)
    {
      names := Names(root);
    }

    /** `remove(name)` of a listed name. */
    method Remove(name: string)
      requires Valid() && name in Names(root)
      modifies this
      ensures Valid() && root == Drop(old(root), {name})
    {
      DropKeepsDistinct(root, {name});
      root := Drop(root, {name});
    }

    /** `FS("writeFile", [name, data])`. */
    method WriteFile(name: string, data: Bytes)
      requires Valid()
      modifies this
      ensures Valid() && root == Written(old(root), name, data)
    {
      WrittenKeepsDistinct(root, name, data);
      root := Written(root, name, data);
    }

    /** `read(name)` of a listed name. */
    method Read(name: string) returns (data: Bytes)
      requires name in Names(root)
      ensures FsEntry(name, data) in root
    {
      data := DataOf(root, name);
    }

    /** `run(args)`: the program rewrites the directory. */
    method Run(args: seq<string>, tool: Tool)
      requires Valid() && KeepsDistinct(tool)
      modifies this
      ensures Valid() && root == tool(old(root), args)
    {
      root := tool(root, args);
    }

    /** clearFFMpegFileSystem: removes every root entry that is not a system entry. */
    method Clear()
      requires Valid()
      modifies this
      ensures Valid() && root == Cleared(old(root))
    {
      var files := Ls();
      ghost var start := root;
      DropNothing(start);
      assert NonSystem(files[..0]) == {};
      if |files| > 0 {
        var i := 0;
        while i < |files|
          invariant 0 <= i <= |files| && files == Names(start)
          invariant Valid() && root == Drop(start, NonSystem(files[..i]))
        {
          NonSystemStep(files, i);
          ghost var next := NonSystem(files[..i + 1]);
          if !IsSystemFile(files[i]) {
            StillListed(start, i, NonSystem(files[..i]));
            Remove(files[i]);
            DropTwice(start, NonSystem(files[..i]), {files[i]});
            assert next == NonSystem(files[..i]) + {files[i]};
            assert root == Drop(start, NonSystem(files[..i]) + {files[i]});
          } else {
            assert next == NonSystem(files[..i]);
          }
          assert root == Drop(start, next);
          i := i + 1;
        }
      }
      ClearByNames(start);
    }
  }
}
