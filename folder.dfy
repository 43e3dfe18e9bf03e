/** The folder listing rules both file-system adapters share
    (internal/adapter/nadapter/fsadapter.go and
    internal/adapter/fsadapter/fsadapter.go): the regular files of a folder
    whose names are not in the skip set, in listing order, at most MaxFiles
    of them. The file system and the path functions are parameters. */
module Folder {
  import opened Common
  import opened Entity

  /** At most this many files are listed per folder. */
  const MaxFiles: nat := 100

  /** What the adapters ask of the file system. */
  datatype FileSystem = FileSystem(
    readDir: string -> Result<seq<DirEntry>>,
    fileExists: string -> bool,        // Stat succeeds
    size: string -> Option<int>,       // Stat().Size(), None when Stat fails
    mimeType: string -> Result<string>) // getMimeType

  /** filepath.Join, filepath.Base and the SHA-1 hex id of a path. */
  datatype Paths = Paths(join: (string, string) -> string, base: string -> string, hash: string -> string)

  /** Whether a path contains "..". */
  predicate HasDotDot(path: string)
  {
    exists i :: 0 <= i < |path| - 1 && path[i] == '.' && path[i + 1] == '.'
  }

  /** The names of the regular files of a listing that are not skipped, in
      listing order. */
  function Eligible(entries: seq<DirEntry>, skip: set<string>): (names: seq<string>)
    ensures |names| <= |entries|
  {
    if entries == [] then []
    else
      var init, last := entries[..|entries| - 1], entries[|entries| - 1];
      Eligible(init, skip) + (if !last.isDir && last.name !in skip then [last.name] else [])
  }

  /** The names readFiles keeps: the first MaxFiles eligible ones. */
  function Kept(entries: seq<DirEntry>, skip: set<string>): (ks: seq<string>)
    ensures var ns := Eligible(entries, skip);
      |ks| <= MaxFiles && |ks| <= |ns| && ks == ns[..|ks|] && (|ns| <= MaxFiles ==> ks == ns)
  {
    var names := Eligible(entries, skip);
    if |names| <= MaxFiles then names else names[..MaxFiles]
  }

  /** A name is eligible exactly when a regular file of that name is listed
      and it is not skipped. */
  lemma {:induction false} EligibleMembers(entries: seq<DirEntry>, skip: set<string>, n: string)
    ensures n in Eligible(entries, skip) <==>
            n !in skip && exists i :: 0 <= i < |entries| && !entries[i].isDir && entries[i].name == n
  {
    if entries != [] {
      var init := entries[..|entries| - 1];
      EligibleMembers(init, skip, n);
      if n in Eligible(init, skip) {
        var i :| 0 <= i < |init| && !init[i].isDir && init[i].name == n;
        assert entries[i] == init[i];
      }
      if exists i :: 0 <= i < |entries| && !entries[i].isDir && entries[i].name == n {
        var i :| 0 <= i < |entries| && !entries[i].isDir && entries[i].name == n;
        if i < |init| {
          assert init[i] == entries[i];
        }
      }
    }
  }

  /** Nothing is kept exactly when every entry is a directory or skipped:
      an empty folder, or one holding only the index page, lists no file. */
  lemma {:induction false} EligibleEmpty(entries: seq<DirEntry>, skip: set<string>)
    ensures Kept(entries, skip) == [] <==> forall i :: 0 <= i < |entries| ==> entries[i].isDir || entries[i].name in skip
  {
    if entries != [] {
      var init := entries[..|entries| - 1];
      EligibleEmpty(init, skip);
      assert forall i :: 0 <= i < |init| ==> init[i] == entries[i];
    }
  }

  /** Listing more entries only appends names. */
  lemma {:induction false} EligiblePrefix(entries: seq<DirEntry>, skip: set<string>, n: nat)
    requires n <= |entries|
    ensures var ns := Eligible(entries[..n], skip);
      |ns| <= |Eligible(entries, skip)| && ns == Eligible(entries, skip)[..|ns|]
  {
    if n < |entries| {
      var init := entries[..|entries| - 1];
      assert init[..n] == entries[..n];
      EligiblePrefix(init, skip, n);
    } else {
      assert entries[..n] == entries;
    }
  }

  /** One more entry of the listing adds its name when it is eligible. */
  lemma EligibleStep(entries: seq<DirEntry>, skip: set<string>, i: nat)
    requires i < |entries|
    ensures Eligible(entries[..i + 1], skip) ==
            Eligible(entries[..i], skip) + (if !entries[i].isDir && entries[i].name !in skip then [entries[i].name] else [])
  {
    assert entries[..i + 1][..i] == entries[..i];
  }

  /** Where readFiles stops, at the end of the listing or with MaxFiles
      names, the names so far are the kept ones. */
  lemma KeptAt(entries: seq<DirEntry>, skip: set<string>, i: nat)
    requires i <= |entries|
    requires var n := |Eligible(entries[..i], skip)|; n == MaxFiles || (i == |entries| && n < MaxFiles)
    ensures Kept(entries, skip) == Eligible(entries[..i], skip)
  {
    EligiblePrefix(entries, skip, i);
    assert entries[..|entries|] == entries;
  }

  /** The skip set: the fixed names and every configured one. */
  method SkipSet(fixed: set<string>, extra: seq<string>) returns (skip: set<string>)
    ensures skip == fixed + set i | 0 <= i < |extra| :: extra[i]
  {
    skip := fixed;
    for i := 0 to |extra|
      invariant skip == fixed + set j | 0 <= j < i :: extra[j]
    {
      skip := skip + {extra[i]};
    }
  }

  /** Appending a name and the file made from it keeps the two in step. */
  lemma MadeAppend(files: seq<File>, names: seq<string>, makeFile: string -> File, name: string)
    requires |files| == |names| && forall j :: 0 <= j < |files| ==> files[j] == makeFile(names[j])
    ensures var fs, ns := files + [makeFile(name)], names + [name];
      |fs| == |ns| && forall j :: 0 <= j < |fs| ==> fs[j] == makeFile(ns[j])
  {
  }

  /** The files readFiles lists for a folder's entries: one per kept
      name, in order, made by `makeFile`. */
  function FolderFiles(entries: seq<DirEntry>, skip: set<string>, makeFile: string -> File): (files: seq<File>)
    ensures var names := Kept(entries, skip);
      |files| == |names| && forall j :: 0 <= j < |files| ==> files[j] == makeFile(names[j])
  {
    var names := Kept(entries, skip);
    seq(|names|, j requires 0 <= j < |names| => makeFile(names[j]))
  }

  /** readFiles: a listing error is returned as it is; otherwise the kept
      entries become files, in listing order. */
  method ReadFiles(fs: FileSystem, folderPath: string, skip: set<string>, makeFile: string -> File) returns (r: Result<seq<File>>)
    ensures fs.readDir(folderPath).Err? ==> r == Err(fs.readDir(folderPath).error)
    ensures fs.readDir(folderPath).Ok? ==> r == Ok(FolderFiles(fs.readDir(folderPath).value, skip, makeFile))
  {
    var entries := fs.readDir(folderPath);
    if entries.Err? {
      return Err(entries.error);
    }
    var files := CollectFiles(entries.value, skip, makeFile);
    assert files == FolderFiles(entries.value, skip, makeFile);
    return Ok(files);
  }

  /** The loop of readFiles: every regular, not skipped entry becomes a
      file, and the loop stops once MaxFiles are collected. */
  method CollectFiles(entries: seq<DirEntry>, skip: set<string>, makeFile: string -> File) returns (files: seq<File>)
    ensures var names := Kept(entries, skip);
      |files| == |names| && forall j :: 0 <= j < |files| ==> files[j] == makeFile(names[j])
  {
    files := [];
    ghost var names: seq<string> := [];
    var i := 0;
    while i < |entries|
      invariant 0 <= i <= |entries|
      invariant names == Eligible(entries[..i], skip)
      invariant |files| == |names| < MaxFiles
      invariant forall j :: 0 <= j < |files| ==> files[j] == makeFile(names[j])
    {
      EligibleStep(entries, skip, i);
      if !entries[i].isDir && entries[i].name !in skip {
        MadeAppend(files, names, makeFile, entries[i].name);
        files := files + [makeFile(entries[i].name)];
        names := names + [entries[i].name];
      }
      i := i + 1;
      if |files| >= MaxFiles {
        break;
      }
    }
    KeptAt(entries, skip, i);
  }

}
