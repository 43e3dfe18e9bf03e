/** The directory scanner of internal/storage/index/index.go: the
    sub-directories of the work directory are the candidate folders, and
    each is converted into a download by the file-system adapter; a folder
    the adapter rejects is skipped. The worker pool is run as one
    sequential worker, and cancellation is a point where it may stop. */
module Storage {
  import opened Common
  import opened Entity

  /** At most this many folders are scanned per run. */
  const MaxDirs: nat := 100

  /** The path of every directory entry, in listing order. */
  function DirPaths(workDir: string, entries: seq<DirEntry>, join: (string, string) -> string): (ps: seq<string>)
    ensures |ps| <= |entries|
  {
    if entries == [] then []
    else
      var init, last := entries[..|entries| - 1], entries[|entries| - 1];
      DirPaths(workDir, init, join) + (if last.isDir then [join(workDir, last.name)] else [])
  }

  /** The folders a scan takes: the first MaxDirs directory paths. */
  function Candidates(workDir: string, entries: seq<DirEntry>, join: (string, string) -> string): (cs: seq<string>)
    ensures var ps := DirPaths(workDir, entries, join);
      |cs| <= MaxDirs && |cs| <= |ps| && cs == ps[..|cs|] && (|ps| <= MaxDirs ==> cs == ps)
  {
    var ps := DirPaths(workDir, entries, join);
    if |ps| <= MaxDirs then ps else ps[..MaxDirs]
  }

  /** A path is listed exactly when some directory entry joins to it. */
  lemma {:induction false} DirPathsMembers(workDir: string, entries: seq<DirEntry>, join: (string, string) -> string, p: string)
    ensures p in DirPaths(workDir, entries, join) <==>
            exists i :: 0 <= i < |entries| && entries[i].isDir && p == join(workDir, entries[i].name)
  {
    if entries != [] {
      var init := entries[..|entries| - 1];
      DirPathsMembers(workDir, init, join, p);
      if p in DirPaths(workDir, init, join) {
        var i :| 0 <= i < |init| && init[i].isDir && p == join(workDir, init[i].name);
        assert entries[i] == init[i];
      }
      if exists i :: 0 <= i < |entries| && entries[i].isDir && p == join(workDir, entries[i].name) {
        var i :| 0 <= i < |entries| && entries[i].isDir && p == join(workDir, entries[i].name);
        if i < |init| {
          assert init[i] == entries[i];
        }
      }
    }
  }

  /** No directory entry, no path. */
  lemma {:induction false} DirPathsEmpty(workDir: string, entries: seq<DirEntry>, join: (string, string) -> string)
    ensures DirPaths(workDir, entries, join) == [] <==> forall i :: 0 <= i < |entries| ==> !entries[i].isDir
  {
    if entries != [] {
      var init := entries[..|entries| - 1];
      DirPathsEmpty(workDir, init, join);
      assert forall i :: 0 <= i < |init| ==> init[i] == entries[i];
    }
  }

  /** Listing more entries only appends paths. */
  lemma {:induction false} DirPathsPrefix(workDir: string, entries: seq<DirEntry>, join: (string, string) -> string, n: nat)
    requires n <= |entries|
    ensures var ps := DirPaths(workDir, entries[..n], join);
      |ps| <= |DirPaths(workDir, entries, join)| && ps == DirPaths(workDir, entries, join)[..|ps|]
  {
    if n < |entries| {
      var init := entries[..|entries| - 1];
      assert init[..n] == entries[..n];
      DirPathsPrefix(workDir, init, join, n);
    } else {
      assert entries[..n] == entries;
    }
  }

  /** The successful conversions of `paths`, in order; a rejected folder is
      skipped. */
  function Converted(paths: seq<string>, convert: string -> Result<Download>): (ds: seq<Download>)
    ensures |ds| <= |paths|
  {
    if paths == [] then []
    else
      var init, last := paths[..|paths| - 1], paths[|paths| - 1];
      Converted(init, convert) + (if convert(last).Ok? then [convert(last).value] else [])
  }

  /** A download is in the result exactly when some path converts to it. */
  lemma {:induction false} ConvertedMembers(paths: seq<string>, convert: string -> Result<Download>, d: Download)
    ensures d in Converted(paths, convert) <==> exists p :: p in paths && convert(p) == Ok(d)
  {
    if paths != [] {
      var init := paths[..|paths| - 1];
      ConvertedMembers(init, convert, d);
      assert forall p :: p in paths <==> p in init || p == paths[|paths| - 1];
    }
  }

  /** When every folder converts, there is one download per folder. */
  lemma {:induction false} ConvertedAll(paths: seq<string>, convert: string -> Result<Download>)
    requires forall i :: 0 <= i < |paths| ==> convert(paths[i]).Ok?
    ensures |Converted(paths, convert)| == |paths|
    ensures forall i :: 0 <= i < |paths| ==> Converted(paths, convert)[i] == convert(paths[i]).value
  {
    if paths != [] {
      var init := paths[..|paths| - 1];
      ConvertedAll(init, convert);
    }
  }

  /** Stopping early keeps a prefix of the full result. */
  lemma {:induction false} ConvertedPrefix(paths: seq<string>, convert: string -> Result<Download>, n: nat)
    requires n <= |paths|
    ensures var ds := Converted(paths[..n], convert);
      |ds| <= |Converted(paths, convert)| && ds == Converted(paths, convert)[..|ds|]
  {
    if n < |paths| {
      var init := paths[..|paths| - 1];
      assert init[..n] == paths[..n];
      ConvertedPrefix(init, convert, n);
    } else {
      assert paths[..n] == paths;
    }
  }

  /** The candidate loop of Scan: take each directory, stop once MaxDirs
      are taken. */
  method SelectDirs(workDir: string, entries: seq<DirEntry>, join: (string, string) -> string) returns (dirs: seq<string>)
    ensures dirs == Candidates(workDir, entries, join)
  {
    dirs := [];
    var i := 0;
    while i < |entries|
      invariant 0 <= i <= |entries|
      invariant dirs == DirPaths(workDir, entries[..i], join)
      invariant |dirs| < MaxDirs
    {
      assert entries[..i + 1][..i] == entries[..i];
      if entries[i].isDir {
        dirs := dirs + [join(workDir, entries[i].name)];
      }
      if |dirs| >= MaxDirs {
        DirPathsPrefix(workDir, entries, join, i + 1);
        return;
      }
      i := i + 1;
    }
    assert entries[..i] == entries;
  }

  class IndexStorage {
    /** Set while a scan runs. */
    var running: bool
    const workDir: string
    /** filepath.Join. */
    const join: (string, string) -> string
    /** The adapter's ToDownload. */
    const convert: string -> Result<Download>

    constructor(workDir: string, join: (string, string) -> string, convert: string -> Result<Download>)
      ensures !running && this.workDir == workDir && this.join == join && this.convert == convert
    {
      running := false;
      this.workDir := workDir;
      this.join := join;
      this.convert := convert;
    }

    /** Scan: `listing` is the result of reading the work directory. A
        re-entrant call is refused; a listing error is returned as it is; no
        directory gives an empty result; otherwise the folders taken before
        any interruption are converted, and the failures skipped. */
    method Scan(listing: Result<seq<DirEntry>>) returns (r: Result<seq<Download>>, ghost taken: nat, ghost interrupted: bool)
      modifies this
      ensures running == old(running)
      ensures old(running) ==> r == Err(IndexingProcessHasAlreadyStarted)
      ensures !old(running) && listing.Err? ==> r == Err(listing.error)
      ensures !old(running) && listing.Ok? ==>
                var cs := Candidates(workDir, listing.value, join);
                r.Ok? && taken <= |cs| && r.value == Converted(cs[..taken], convert) &&
                (!interrupted ==> taken == |cs|)
      ensures !old(running) && listing.Ok? && Candidates(workDir, listing.value, join) == [] ==> r == Ok([])
    {
      if running {
        return Err(IndexingProcessHasAlreadyStarted), 0, false;
      }
      running := true;
      if listing.Err? {
        running := false;
        return Err(listing.error), 0, false;
      }
      var dirs := SelectDirs(workDir, listing.value, join);
      if |dirs| == 0 {
        running := false;
        return Ok([]), 0, false;
      }
      var downloads;
      downloads, taken, interrupted := Work(dirs);
      running := false;
      return Ok(downloads), taken, interrupted;
    }

    /** The worker: each folder is converted once, in order; a failure is
        skipped; after a conversion, cancellation may stop the worker before
        that download is handed on. */
    method Work(dirs: seq<string>) returns (downloads: seq<Download>, ghost taken: nat, ghost interrupted: bool)
      ensures taken <= |dirs| && downloads == Converted(dirs[..taken], convert)
      ensures !interrupted ==> taken == |dirs|
    {
      downloads := [];
      for i := 0 to |dirs|
        invariant downloads == Converted(dirs[..i], convert)
      {
        assert dirs[..i + 1][..i] == dirs[..i];
        var download := convert(dirs[i]);
        if download.Err? {
          continue;
        }
        var cancelled: bool := *;
        if cancelled {
          return downloads, i, true;
        }
        downloads := downloads + [download.value];
      }
      assert dirs[..|dirs|] == dirs;
      return downloads, |dirs|, false;
    }
  }
}
