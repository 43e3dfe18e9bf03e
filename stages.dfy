/** The stages of `Save` (internal/repository/download/download.go) as
    functions on the keyspace, and what each stage leaves behind.

    Save resolves the versions (resetting a missing version key to v1), clears
    the standby generation, queues one HSET per entry of the batch, flips
    the version key `av` and then deletes the `fs:` keys whose names are not
    file ids of the batch, which leaves every counter (a field of the hash
    `fs`) in place. Each stage is a function here; the repository's methods are
    proved to compute them. */
module Stages {
  import opened Common
  import opened Redis
  import opened Keys
  import opened Entity

  /** `a` and `b` hold the same value (or nothing) at `k`. */
  predicate Agree(a: Keyspace, b: Keyspace, k: string)
  {
    (k in a <==> k in b) && (k in a ==> a[k] == b[k])
  }

  /** Every key of `small` is in `big` with the same value. */
  predicate SubMap(small: Keyspace, big: Keyspace)
  {
    forall k :: k in small ==> k in big && small[k] == big[k]
  }

  /** getVersions' write: a version key that does not read as v1 or v2 is set
      to v1. */
  function Reset(ks: Keyspace): Keyspace
  {
    if IsVersion(StoredVersion(ks)) then ks else ks[KeyActiveVersion := Str(KeyVersion1)]
  }

  /** clearOldData on success: every key of generation `ver` is gone and
      every other key is kept. */
  function ClearGeneration(ks: Keyspace, ver: string): Keyspace
  {
    map k | k in ks && !InGeneration(k, ver) :: ks[k]
  }

  // ---------------------------------------------------------------------
  // saveNewData's pipeline

  /** The two HSETs queued for each file of the download `id`. */
  function FileCommands(ver: string, id: string, files: seq<File>): seq<Command>
  {
    if files == [] then []
    else
      var f := files[|files| - 1];
      FileCommands(ver, id, files[..|files| - 1]) +
        [HSet(GenKey(KeyFilesMap, ver), f.id, f.url), HSet(DownloadFilesKey(ver, id), f.id, f.url)]
  }

  /** The commands queued for one download, in the order of the source. */
  function DownloadCommands(ver: string, d: Download): seq<Command>
  {
    [HSet(GenKey(KeyDownloadMap, ver), d.id, d.sourcePath), HSet(GenKey(KeyPageContent, ver), d.id, d.pageContent)]
      + FileCommands(ver, d.id, d.files)
  }

  /** The whole pipeline saveNewData sends for a batch. */
  function SaveCommands(ver: string, ds: seq<Download>): seq<Command>
  {
    if ds == [] then [] else SaveCommands(ver, ds[..|ds| - 1]) + DownloadCommands(ver, ds[|ds| - 1])
  }

  // ---------------------------------------------------------------------
  // Reference contents of the four hashes, independent of the commands.
  // A later entry with the same id overwrites an earlier one.

  /** file id -> url over a list of files. */
  function UrlMap(files: seq<File>): map<string, string>
  {
    if files == [] then map[]
    else UrlMap(files[..|files| - 1])[files[|files| - 1].id := files[|files| - 1].url]
  }

  /** download id -> folder path (`dm:ver`). */
  function DownloadMap(ds: seq<Download>): map<string, string>
  {
    if ds == [] then map[]
    else DownloadMap(ds[..|ds| - 1])[ds[|ds| - 1].id := ds[|ds| - 1].sourcePath]
  }

  /** download id -> page (`pc:ver`). */
  function PageMap(ds: seq<Download>): map<string, string>
  {
    if ds == [] then map[]
    else PageMap(ds[..|ds| - 1])[ds[|ds| - 1].id := ds[|ds| - 1].pageContent]
  }

  /** file id -> url over the whole batch (`fm:ver`). */
  function FileMap(ds: seq<Download>): map<string, string>
  {
    if ds == [] then map[] else FileMap(ds[..|ds| - 1]) + UrlMap(ds[|ds| - 1].files)
  }

  /** file id -> url of the downloads called `id` (`dfm:ver:id`). */
  function DownloadFilesMap(ds: seq<Download>, id: string): map<string, string>
  {
    if ds == [] then map[]
    else
      var d := ds[|ds| - 1];
      DownloadFilesMap(ds[..|ds| - 1], id) + (if d.id == id then UrlMap(d.files) else map[])
  }

  // ---------------------------------------------------------------------
  // What a run of HSETs does to one hash

  predicate AllHSet(cmds: seq<Command>)
  {
    forall i :: 0 <= i < |cmds| ==> cmds[i].HSet?
  }

  /** The fields that the HSETs of `cmds` on `key` write, the last write
      of a field winning. */
  function Updates(cmds: seq<Command>, key: string): map<string, string>
  {
    if cmds == [] then map[]
    else
      var c := cmds[|cmds| - 1];
      var u := Updates(cmds[..|cmds| - 1], key);
      if c.HSet? && c.key == key then u[c.field := c.value] else u
  }

  lemma {:induction false} UpdatesAppend(a: seq<Command>, b: seq<Command>, key: string)
    ensures Updates(a + b, key) == Updates(a, key) + Updates(b, key)
  {
    if b == [] {
      assert a + b == a;
    } else {
      var init := b[..|b| - 1];
      assert (a + b)[..|a + b| - 1] == a + init;
      assert (a + b)[|a + b| - 1] == b[|b| - 1];
      UpdatesAppend(a, init, key);
    }
  }

  lemma {:induction false} RunHSetFields(ks: Keyspace, cmds: seq<Command>, key: string)
    requires AllHSet(cmds) && HashLike(ks, key)
    ensures HashLike(Run(ks, cmds), key)
    ensures Fields(Run(ks, cmds), key) == Fields(ks, key) + Updates(cmds, key)
  {
    if cmds != [] {
      var init := cmds[..|cmds| - 1];
      assert AllHSet(init) by {
        forall i | 0 <= i < |init| ensures init[i].HSet? { assert init[i] == cmds[i]; }
      }
      RunHSetFields(ks, init, key);
      var c := cmds[|cmds| - 1];
      assert Run(ks, cmds) == Step(Run(ks, init), c).0;
      if c.key == key {
        MergeUpdate(Fields(ks, key), Updates(init, key), c.field, c.value);
      }
    }
  }

  /** A write after a merge is a write to the merged-in map. */
  lemma MergeUpdate(base: map<string, string>, u: map<string, string>, f: string, v: string)
    ensures (base + u)[f := v] == base + u[f := v]
  {
  }

  /** HSETs on keys that all hold hashes (or nothing) reply without error. */
  lemma {:induction false} RunHSetNoError(ks: Keyspace, cmds: seq<Command>)
    requires AllHSet(cmds)
    requires forall i :: 0 <= i < |cmds| ==> HashLike(ks, cmds[i].key)
    ensures FirstError(ks, cmds) == None
  {
    if cmds != [] {
      var init := cmds[..|cmds| - 1];
      var c := cmds[|cmds| - 1];
      assert AllHSet(init) by {
        forall i | 0 <= i < |init| ensures init[i].HSet? { assert init[i] == cmds[i]; }
      }
      assert forall i :: 0 <= i < |init| ==> HashLike(ks, init[i].key) by {
        forall i | 0 <= i < |init| ensures HashLike(ks, init[i].key) { assert init[i] == cmds[i]; }
      }
      RunHSetNoError(ks, init);
      RunHSetFields(ks, init, c.key);
    }
  }

  lemma PairUpdates(c1: Command, c2: Command, key: string)
    ensures Updates([c1, c2], key) ==
      var u1 := if c1.HSet? && c1.key == key then map[c1.field := c1.value] else map[];
      if c2.HSet? && c2.key == key then u1[c2.field := c2.value] else u1
  {
    assert [c1, c2][..1] == [c1];
    assert [c1][..0] == [];
    assert Updates([c1], key) == if c1.HSet? && c1.key == key then map[c1.field := c1.value] else map[];
  }

  lemma {:induction false} FileUpdates(ver: string, id: string, files: seq<File>, key: string)
    ensures Updates(FileCommands(ver, id, files), key) ==
      if key == GenKey(KeyFilesMap, ver) || key == DownloadFilesKey(ver, id) then UrlMap(files) else map[]
  {
    if files != [] {
      var init, f := files[..|files| - 1], files[|files| - 1];
      var c1, c2 := HSet(GenKey(KeyFilesMap, ver), f.id, f.url), HSet(DownloadFilesKey(ver, id), f.id, f.url);
      FileUpdates(ver, id, init, key);
      UpdatesAppend(FileCommands(ver, id, init), [c1, c2], key);
      PairUpdates(c1, c2, key);
      WrittenKeysDistinct(ver, id);
    }
  }

  lemma DownloadUpdates(ver: string, d: Download, key: string)
    ensures Updates(DownloadCommands(ver, d), key) ==
      if key == GenKey(KeyDownloadMap, ver) then map[d.id := d.sourcePath]
      else if key == GenKey(KeyPageContent, ver) then map[d.id := d.pageContent]
      else if key == GenKey(KeyFilesMap, ver) || key == DownloadFilesKey(ver, d.id) then UrlMap(d.files)
      else map[]
  {
    var c1, c2 := HSet(GenKey(KeyDownloadMap, ver), d.id, d.sourcePath), HSet(GenKey(KeyPageContent, ver), d.id, d.pageContent);
    UpdatesAppend([c1, c2], FileCommands(ver, d.id, d.files), key);
    PairUpdates(c1, c2, key);
    FileUpdates(ver, d.id, d.files, key);
    WrittenKeysDistinct(ver, d.id);
  }

  /** Distinct download ids give distinct per-download hashes. */
  lemma DownloadFilesKeyInjective(ver: string, a: string, b: string)
    ensures DownloadFilesKey(ver, a) == DownloadFilesKey(ver, b) ==> a == b
  {
    var p := GenKey(KeyDownloadFilesMap, ver) + ":";
    if DownloadFilesKey(ver, a) == DownloadFilesKey(ver, b) {
      assert a == DownloadFilesKey(ver, a)[|p|..];
      assert b == DownloadFilesKey(ver, b)[|p|..];
    }
  }

  /** The pipeline writes `dm:ver` with exactly DownloadMap. */
  lemma {:induction false} SaveUpdatesDownloadMap(ver: string, ds: seq<Download>)
    ensures Updates(SaveCommands(ver, ds), GenKey(KeyDownloadMap, ver)) == DownloadMap(ds)
  {
    if ds != [] {
      var init, d := ds[..|ds| - 1], ds[|ds| - 1];
      SaveUpdatesDownloadMap(ver, init);
      UpdatesAppend(SaveCommands(ver, init), DownloadCommands(ver, d), GenKey(KeyDownloadMap, ver));
      DownloadUpdates(ver, d, GenKey(KeyDownloadMap, ver));
    }
  }

  /** The pipeline writes `pc:ver` with exactly PageMap. */
  lemma {:induction false} SaveUpdatesPageMap(ver: string, ds: seq<Download>)
    ensures Updates(SaveCommands(ver, ds), GenKey(KeyPageContent, ver)) == PageMap(ds)
  {
    if ds != [] {
      var init, d := ds[..|ds| - 1], ds[|ds| - 1];
      SaveUpdatesPageMap(ver, init);
      UpdatesAppend(SaveCommands(ver, init), DownloadCommands(ver, d), GenKey(KeyPageContent, ver));
      DownloadUpdates(ver, d, GenKey(KeyPageContent, ver));
      WrittenKeysDistinct(ver, d.id);
    }
  }

  /** The pipeline writes `fm:ver` with exactly FileMap. */
  lemma {:induction false} SaveUpdatesFileMap(ver: string, ds: seq<Download>)
    ensures Updates(SaveCommands(ver, ds), GenKey(KeyFilesMap, ver)) == FileMap(ds)
  {
    if ds != [] {
      var init, d := ds[..|ds| - 1], ds[|ds| - 1];
      SaveUpdatesFileMap(ver, init);
      UpdatesAppend(SaveCommands(ver, init), DownloadCommands(ver, d), GenKey(KeyFilesMap, ver));
      DownloadUpdates(ver, d, GenKey(KeyFilesMap, ver));
      WrittenKeysDistinct(ver, d.id);
    }
  }

  /** The pipeline writes `dfm:ver:id` with exactly DownloadFilesMap. */
  lemma {:induction false} SaveUpdatesDownloadFiles(ver: string, ds: seq<Download>, id: string)
    ensures Updates(SaveCommands(ver, ds), DownloadFilesKey(ver, id)) == DownloadFilesMap(ds, id)
  {
    if ds != [] {
      var init, d := ds[..|ds| - 1], ds[|ds| - 1];
      SaveUpdatesDownloadFiles(ver, init, id);
      UpdatesAppend(SaveCommands(ver, init), DownloadCommands(ver, d), DownloadFilesKey(ver, id));
      DownloadUpdates(ver, d, DownloadFilesKey(ver, id));
      WrittenKeysDistinct(ver, id);
      DownloadFilesKeyInjective(ver, id, d.id);
    }
  }

  // ---------------------------------------------------------------------
  // The pipeline only writes the generation it is given

  /** Every command is an HSET on a key of generation `ver`. */
  predicate WritesGeneration(cmds: seq<Command>, ver: string)
  {
    forall i :: 0 <= i < |cmds| ==> cmds[i].HSet? && InGeneration(cmds[i].key, ver)
  }

  lemma FileCommandsWriteGeneration(ver: string, id: string, files: seq<File>)
    ensures WritesGeneration(FileCommands(ver, id, files), ver)
  {
    if files != [] {
      FileCommandsWriteGeneration(ver, id, files[..|files| - 1]);
      WrittenKeysInGeneration(ver, id);
    }
  }

  lemma {:induction false} SaveCommandsWriteGeneration(ver: string, ds: seq<Download>)
    ensures WritesGeneration(SaveCommands(ver, ds), ver)
  {
    if ds != [] {
      var d := ds[|ds| - 1];
      SaveCommandsWriteGeneration(ver, ds[..|ds| - 1]);
      FileCommandsWriteGeneration(ver, d.id, d.files);
      WrittenKeysInGeneration(ver, d.id);
    }
  }

  /** A key that no command names keeps its value. */
  lemma Untouched(ks: Keyspace, cmds: seq<Command>, k: string)
    ensures k !in KeysOf(cmds) ==> Agree(Run(ks, cmds), ks, k)
  {
    if k !in KeysOf(cmds) {
      RunTouchesOnlyNamedKeys(ks, cmds, k);
    }
  }

  /** Keyspaces that agree on every key are equal. */
  lemma AgreeEverywhere(a: Keyspace, b: Keyspace)
    requires forall k :: Agree(a, b, k)
    ensures a == b
  {
    assert a.Keys == b.Keys by {
      forall k | k in a ensures k in b { assert Agree(a, b, k); }
      forall k | k in b ensures k in a { assert Agree(a, b, k); }
    }
    forall k | k in a ensures a[k] == b[k] { assert Agree(a, b, k); }
  }

  /** The keyspace after clearOldData and saveNewData both succeeded. */
  function Staged(ks: Keyspace, ver: string, ds: seq<Download>): Keyspace
  {
    Run(ClearGeneration(ks, ver), SaveCommands(ver, ds))
  }

  /** clearOldData's result holds no key of the generation and every
      other key as it was. */
  lemma ClearedShape(ks: Keyspace, ver: string)
    ensures forall k :: InGeneration(k, ver) ==> k !in ClearGeneration(ks, ver)
    ensures forall k :: !InGeneration(k, ver) ==> Agree(ClearGeneration(ks, ver), ks, k)
  {
  }

  /** After clearOldData no command of the pipeline can fail. */
  lemma StagedNoError(ks: Keyspace, ver: string, ds: seq<Download>)
    ensures FirstError(ClearGeneration(ks, ver), SaveCommands(ver, ds)) == None
  {
    var cleared, cmds := ClearGeneration(ks, ver), SaveCommands(ver, ds);
    SaveCommandsWriteGeneration(ver, ds);
    ClearedShape(ks, ver);
    assert forall i :: 0 <= i < |cmds| ==> HashLike(cleared, cmds[i].key);
    RunHSetNoError(cleared, cmds);
  }

  /** The three hashes indexed by download or file id hold exactly the
      batch. */
  lemma StagedHashes(ks: Keyspace, ver: string, ds: seq<Download>)
    ensures Fields(Staged(ks, ver, ds), GenKey(KeyDownloadMap, ver)) == DownloadMap(ds)
    ensures Fields(Staged(ks, ver, ds), GenKey(KeyPageContent, ver)) == PageMap(ds)
    ensures Fields(Staged(ks, ver, ds), GenKey(KeyFilesMap, ver)) == FileMap(ds)
  {
    WrittenKeysInGeneration(ver, "");
    StagedHash(ks, ver, ds, GenKey(KeyDownloadMap, ver));
    StagedHash(ks, ver, ds, GenKey(KeyPageContent, ver));
    StagedHash(ks, ver, ds, GenKey(KeyFilesMap, ver));
    SaveUpdatesDownloadMap(ver, ds);
    SaveUpdatesPageMap(ver, ds);
    SaveUpdatesFileMap(ver, ds);
  }

  /** A hash of the generation holds exactly what the pipeline writes to it. */
  lemma StagedHash(ks: Keyspace, ver: string, ds: seq<Download>, key: string)
    requires InGeneration(key, ver)
    ensures Fields(Staged(ks, ver, ds), key) == Updates(SaveCommands(ver, ds), key)
  {
    var cleared, cmds := ClearGeneration(ks, ver), SaveCommands(ver, ds);
    SaveCommandsWriteGeneration(ver, ds);
    ClearedShape(ks, ver);
    RunHSetFields(cleared, cmds, key);
  }

  /** Nothing outside the generation changes, and the generation holds no
      key that the pipeline did not write. */
  lemma StagedFootprint(ks: Keyspace, ver: string, ds: seq<Download>)
    ensures forall k :: !InGeneration(k, ver) ==> Agree(Staged(ks, ver, ds), ks, k)
    ensures forall k :: k in Staged(ks, ver, ds) && InGeneration(k, ver) ==> k in KeysOf(SaveCommands(ver, ds))
  {
    var cleared, cmds := ClearGeneration(ks, ver), SaveCommands(ver, ds);
    SaveCommandsWriteGeneration(ver, ds);
    ClearedShape(ks, ver);
    forall k ensures (!InGeneration(k, ver) ==> Agree(Run(cleared, cmds), ks, k))
                 && (k in Run(cleared, cmds) && InGeneration(k, ver) ==> k in KeysOf(cmds)) {
      Untouched(cleared, cmds, k);
      if k in KeysOf(cmds) {
        var i :| 0 <= i < |cmds| && cmds[i].key == k;
      }
    }
  }

  /** The same for one key. */
  lemma StagedKeeps(ks: Keyspace, ver: string, ds: seq<Download>, k: string)
    requires !InGeneration(k, ver)
    ensures Agree(Staged(ks, ver, ds), ks, k)
  {
    SaveCommandsWriteGeneration(ver, ds);
    ClearedShape(ks, ver);
    Untouched(ClearGeneration(ks, ver), SaveCommands(ver, ds), k);
  }

  lemma StagedDownloadFiles(ks: Keyspace, ver: string, ds: seq<Download>, id: string)
    ensures Fields(Staged(ks, ver, ds), DownloadFilesKey(ver, id)) == DownloadFilesMap(ds, id)
  {
    var cleared, cmds := ClearGeneration(ks, ver), SaveCommands(ver, ds);
    WrittenKeysInGeneration(ver, id);
    SaveCommandsWriteGeneration(ver, ds);
    ClearedShape(ks, ver);
    RunHSetFields(cleared, cmds, DownloadFilesKey(ver, id));
    SaveUpdatesDownloadFiles(ver, ds, id);
  }

  // ---------------------------------------------------------------------
  // What the reference maps hold

  /** `ds[i]` is the last download of the batch with its id. */
  predicate LastWithId(ds: seq<Download>, i: int)
  {
    0 <= i < |ds| && forall j :: i < j < |ds| ==> ds[j].id != ds[i].id
  }

  predicate UniqueIds(ds: seq<Download>)
  {
    forall i, j :: 0 <= i < j < |ds| ==> ds[i].id != ds[j].id
  }

  /** `dm:ver` and `pc:ver` list every download of the batch and nothing
      else. */
  lemma {:induction false} DownloadMapKeys(ds: seq<Download>)
    ensures DownloadMap(ds).Keys == set d | d in ds :: d.id
    ensures PageMap(ds).Keys == DownloadMap(ds).Keys
  {
    if ds != [] {
      var init, last := ds[..|ds| - 1], ds[|ds| - 1];
      DownloadMapKeys(init);
      assert forall d :: d in ds <==> d in init || d == last;
      assert (set d | d in ds :: d.id) == (set d | d in init :: d.id) + {last.id};
    }
  }

  /** For a repeated id the last download wins. */
  lemma {:induction false} DownloadMapLast(ds: seq<Download>, i: int)
    requires LastWithId(ds, i)
    ensures ds[i].id in DownloadMap(ds) && DownloadMap(ds)[ds[i].id] == ds[i].sourcePath
    ensures ds[i].id in PageMap(ds) && PageMap(ds)[ds[i].id] == ds[i].pageContent
  {
    if i < |ds| - 1 {
      var init := ds[..|ds| - 1];
      assert LastWithId(init, i) by {
        forall j | i < j < |init| ensures init[j].id != init[i].id { assert init[j] == ds[j]; }
      }
      DownloadMapLast(init, i);
    }
  }

  /** The ids of a list of files are the keys of its UrlMap. */
  lemma {:induction false} UrlMapKeys(files: seq<File>)
    ensures UrlMap(files).Keys == set f | f in files :: f.id
  {
    if files != [] {
      var init, last := files[..|files| - 1], files[|files| - 1];
      UrlMapKeys(init);
      assert forall f :: f in files <==> f in init || f == last;
      assert (set f | f in files :: f.id) == (set f | f in init :: f.id) + {last.id};
    }
  }

  /** When the files that share an id share a url, every file finds its own
      url. */
  lemma {:induction false} UrlMapUrl(files: seq<File>, f: File)
    requires f in files
    requires forall g, h :: g in files && h in files && g.id == h.id ==> g.url == h.url
    ensures f.id in UrlMap(files) && UrlMap(files)[f.id] == f.url
  {
    var init, last := files[..|files| - 1], files[|files| - 1];
    if f.id != last.id {
      assert f in init;
      UrlMapUrl(init, f);
    }
  }

  /** Files of the batch that share an id share a url (the id is a hash of
      the file's path, and so is the url). */
  predicate ConsistentUrls(ds: seq<Download>)
  {
    forall d, e, f, g :: d in ds && e in ds && f in d.files && g in e.files && f.id == g.id ==> f.url == g.url
  }

  /** `fm:ver` lists exactly the file ids of the batch. */
  lemma {:induction false} FileMapKeys(ds: seq<Download>)
    ensures FileMap(ds).Keys == FileIds(ds)
  {
    if ds != [] {
      var init, last := ds[..|ds| - 1], ds[|ds| - 1];
      FileMapKeys(init);
      UrlMapKeys(last.files);
      assert forall d :: d in ds <==> d in init || d == last;
      forall id | id in FileIds(ds) ensures id in FileMap(ds) {
        var d, f :| d in ds && f in d.files && f.id == id;
        if d != last { assert id in FileIds(init); }
      }
      forall id | id in FileMap(ds) ensures id in FileIds(ds) {
        if id !in FileMap(init) {
          var f :| f in last.files && f.id == id;
        }
      }
    }
  }

  /** ... and each with its url. */
  lemma {:induction false} FileMapUrl(ds: seq<Download>, d: Download, f: File)
    requires ConsistentUrls(ds) && d in ds && f in d.files
    ensures f.id in FileMap(ds) && FileMap(ds)[f.id] == f.url
  {
    var init, last := ds[..|ds| - 1], ds[|ds| - 1];
    UrlMapKeys(last.files);
    if f.id in UrlMap(last.files) {
      var g :| g in last.files && g.id == f.id;
      UrlMapUrl(last.files, g);
    } else {
      assert d != last && d in init;
      assert ConsistentUrls(init);
      FileMapUrl(init, d, f);
    }
  }

  /** `dfm:ver:id` is empty for an id no download of the batch has ... */
  lemma {:induction false} DownloadFilesMapAbsent(ds: seq<Download>, id: string)
    requires forall d :: d in ds ==> d.id != id
    ensures DownloadFilesMap(ds, id) == map[]
  {
    if ds != [] {
      var init := ds[..|ds| - 1];
      assert forall d :: d in init ==> d in ds;
      DownloadFilesMapAbsent(init, id);
    }
  }

  /** ... and, with distinct download ids, holds exactly the files of the
      download that has it. */
  lemma {:induction false} DownloadFilesMapOf(ds: seq<Download>, i: nat)
    requires UniqueIds(ds) && i < |ds|
    ensures DownloadFilesMap(ds, ds[i].id) == UrlMap(ds[i].files)
  {
    var init, last := ds[..|ds| - 1], ds[|ds| - 1];
    if i < |ds| - 1 {
      assert init[i] == ds[i];
      assert UniqueIds(init);
      assert last.id != ds[i].id;
      DownloadFilesMapOf(init, i);
    } else {
      forall d | d in init ensures d.id != last.id {
        var j :| 0 <= j < |init| && init[j] == d;
        assert ds[j] == d;
      }
      DownloadFilesMapAbsent(init, last.id);
    }
  }

  // ---------------------------------------------------------------------
  // Pruning counters

  /** The keys clearDeletedFileCounters deletes as written: every key under
      `fs:` whose full name is not a file id of the batch. Neither the hash
      `fs` that holds the counters nor the version key is ever one of them. */
  function StaleStatKeys(ks: Keyspace, ids: set<string>): (s: set<string>)
    ensures KeyFileStats !in s && KeyActiveVersion !in s
  {
    set k | k in ks && HasPrefix(k, KeyFileStats + ":") && k !in ids
  }

  /** A stale `fs:` key lies in no generation. */
  lemma StaleOutsideGenerations(ks: Keyspace, ids: set<string>, k: string, ver: string)
    requires IsVersion(ver) && k in StaleStatKeys(ks, ids)
    ensures !InGeneration(k, ver)
  {
    assert KeyFileStats + ":" == "fs:";
    OutsideGenerations(k, ver);
  }

  /** The counters of files outside `ids` that the hash `fs` holds. */
  function StaleCounters(ks: Keyspace, ids: set<string>): set<string>
  {
    Fields(ks, KeyFileStats).Keys - ids
  }

  /** The intended prune: every counter of a file outside the batch is
      removed from `fs`, and no other key is touched; nothing is sent when
      there is no such counter. */
  function PruneCounters(ks: Keyspace, ids: set<string>): (p: Keyspace)
    ensures forall k :: k != KeyFileStats ==> Agree(p, ks, k)
  {
    if StaleCounters(ks, ids) == {} then ks else WithoutFields(ks, KeyFileStats, StaleCounters(ks, ids))
  }

  /** The intended prune keeps the counter of every file of the batch and
      drops every other counter. */
  lemma PruneCountersRead(ks: Keyspace, ids: set<string>, id: string)
    requires HashLike(ks, KeyFileStats)
    ensures HGet(PruneCounters(ks, ids), KeyFileStats, id) == if id in ids then HGet(ks, KeyFileStats, id) else Nil
  {
    var m := Fields(ks, KeyFileStats);
    var stale := StaleCounters(ks, ids);
    if stale != {} {
      var kept := m - stale;
      assert id in kept <==> id in m && id in ids;
      if kept != map[] {
        assert PruneCounters(ks, ids)[KeyFileStats] == Hash(kept);
      }
    } else {
      assert id in m && id !in ids ==> id in stale;
    }
  }

  /** A counter of a file that left the batch: the as-written prune keeps it,
      the intended one removes it. */
  lemma StaleCounterSurvives()
    ensures var ks := map[KeyFileStats := Hash(map["gone" := "5"])];
      HGet(ks - StaleStatKeys(ks, {}), KeyFileStats, "gone") == Val("5") &&
      HGet(PruneCounters(ks, {}), KeyFileStats, "gone") == Nil
  {
    var ks := map[KeyFileStats := Hash(map["gone" := "5"])];
    assert StaleStatKeys(ks, {}) == {};
    assert StaleCounters(ks, {}) == {"gone"};
    assert Fields(ks, KeyFileStats) - {"gone"} == map[];
  }

  // ---------------------------------------------------------------------
  // A whole successful Save

  /** The keyspace of a Save of `ds` from `ks` once the version key names
      the freshly written standby generation, before the prune. */
  function Flipped(ks: Keyspace, ds: seq<Download>): Keyspace
  {
    var standby := Versions(StoredVersion(ks)).1;
    Staged(Reset(ks), standby, ds)[KeyActiveVersion := Str(standby)]
  }

  /** The keyspace after a Save of `ds` from `ks` that succeeded, as the
      program does it: clearDeletedFileCounters deletes the stale `fs:`
      keys and leaves the counter hash alone. */
  function Published(ks: Keyspace, ds: seq<Download>): Keyspace
  {
    Flipped(ks, ds) - StaleStatKeys(Flipped(ks, ds), FileIds(ds))
  }

  /** The same Save with the intended prune of the counter hash. */
  function PublishedCorrected(ks: Keyspace, ds: seq<Download>): Keyspace
  {
    PruneCounters(Flipped(ks, ds), FileIds(ds))
  }

  /** Before the prune, every key outside the standby generation but the
      version key is as it was. */
  lemma FlippedKeeps(ks: Keyspace, ds: seq<Download>, k: string)
    requires k != KeyActiveVersion && !InGeneration(k, Versions(StoredVersion(ks)).1)
    ensures Agree(Flipped(ks, ds), ks, k)
  {
    StagedKeeps(Reset(ks), Versions(StoredVersion(ks)).1, ds, k);
  }

  /** The flip and the writes of the standby generation leave the `fs:`
      keys alone, so the prune finds the stale keys the start held. */
  lemma StaleStatKeysFlipped(ks: Keyspace, ds: seq<Download>)
    ensures StaleStatKeys(Flipped(ks, ds), FileIds(ds)) == StaleStatKeys(ks, FileIds(ds))
  {
    var standby := Versions(StoredVersion(ks)).1;
    var f, ids := Flipped(ks, ds), FileIds(ds);
    forall k | HasPrefix(k, KeyFileStats + ":")
      ensures k in f <==> k in ks
    {
      assert KeyFileStats + ":" == "fs:";
      OutsideGenerations(k, standby);
      FlippedKeeps(ks, ds, k);
    }
  }

  /** Either prune leaves the version key and the new generation as the
      flip left them. */
  lemma PruneKeepsGeneration(ks: Keyspace, ds: seq<Download>, k: string)
    requires k == KeyActiveVersion || InGeneration(k, Versions(StoredVersion(ks)).1)
    ensures Agree(Published(ks, ds), Flipped(ks, ds), k)
    ensures Agree(PublishedCorrected(ks, ds), Flipped(ks, ds), k)
  {
    var standby := Versions(StoredVersion(ks)).1;
    OutsideGenerations(KeyFileStats, standby);
    if k in StaleStatKeys(Flipped(ks, ds), FileIds(ds)) {
      StaleOutsideGenerations(Flipped(ks, ds), FileIds(ds), k, standby);
    }
  }

  /** After a successful Save the version key names the standby generation,
      which holds exactly the batch; this holds with either prune. */
  lemma PublishedGeneration(ks: Keyspace, ds: seq<Download>, id: string)
    ensures var standby := Versions(StoredVersion(ks)).1;
      forall p :: p == Published(ks, ds) || p == PublishedCorrected(ks, ds) ==>
        Get(p, KeyActiveVersion) == Val(standby) &&
        Fields(p, GenKey(KeyDownloadMap, standby)) == DownloadMap(ds) &&
        Fields(p, GenKey(KeyPageContent, standby)) == PageMap(ds) &&
        Fields(p, GenKey(KeyFilesMap, standby)) == FileMap(ds) &&
        Fields(p, DownloadFilesKey(standby, id)) == DownloadFilesMap(ds, id)
  {
    var standby := Versions(StoredVersion(ks)).1;
    StagedHashes(Reset(ks), standby, ds);
    StagedDownloadFiles(Reset(ks), standby, ds, id);
    WrittenKeysInGeneration(standby, id);
    OutsideGenerations(KeyActiveVersion, standby);
    PruneKeepsGeneration(ks, ds, KeyActiveVersion);
    PruneKeepsGeneration(ks, ds, GenKey(KeyDownloadMap, standby));
    PruneKeepsGeneration(ks, ds, GenKey(KeyPageContent, standby));
    PruneKeepsGeneration(ks, ds, GenKey(KeyFilesMap, standby));
    PruneKeepsGeneration(ks, ds, DownloadFilesKey(standby, id));
  }

  /** The standby generation of the flip holds only keys the pipeline
      wrote. */
  lemma FlippedWritten(ks: Keyspace, ds: seq<Download>, k: string)
    requires k in Flipped(ks, ds) && InGeneration(k, Versions(StoredVersion(ks)).1)
    ensures k in KeysOf(SaveCommands(Versions(StoredVersion(ks)).1, ds))
  {
    var standby := Versions(StoredVersion(ks)).1;
    OutsideGenerations(KeyActiveVersion, standby);
    StagedFootprint(Reset(ks), standby, ds);
  }

  /** The footprint of a flip followed by a deletion of stale keys, on
      abstract keyspaces: `f` is the flip, `p` what the deletion leaves. */
  lemma DeletionFootprint(ks: Keyspace, f: Keyspace, p: Keyspace, stale: set<string>, written: set<string>,
                          active: string, standby: string, k: string)
    requires p == f - stale
    requires k != KeyActiveVersion && !InGeneration(k, standby) ==> Agree(f, ks, k)
    requires k in f && InGeneration(k, standby) ==> k in written
    requires k in stale ==> k in ks && k != KeyActiveVersion && !InGeneration(k, standby) && !InGeneration(k, active)
    requires InGeneration(k, active) ==> k != KeyActiveVersion && !InGeneration(k, standby)
    ensures InGeneration(k, active) ==> Agree(p, ks, k)
    ensures k != KeyActiveVersion && !InGeneration(k, standby) ==> (Agree(p, ks, k) <==> k !in stale)
    ensures k in stale ==> k !in p
    ensures k in p && InGeneration(k, standby) ==> k in written
  {
  }

  /** As written, a successful Save leaves every key outside the standby
      generation but the version key as it was, except that it deletes
      exactly the `fs:` keys that are not file ids of the batch; the
      generation that was active is untouched, and the standby generation
      holds no key the pipeline did not write. */
  lemma PublishedFootprint(ks: Keyspace, ds: seq<Download>, k: string)
    ensures var (active, standby) := Versions(StoredVersion(ks));
      var p := Published(ks, ds);
      (InGeneration(k, active) ==> Agree(p, ks, k)) &&
      (k != KeyActiveVersion && !InGeneration(k, standby) ==>
         (Agree(p, ks, k) <==> k !in StaleStatKeys(ks, FileIds(ds)))) &&
      (k in StaleStatKeys(ks, FileIds(ds)) ==> k !in p) &&
      (k in p && InGeneration(k, standby) ==> k in KeysOf(SaveCommands(standby, ds)))
  {
    var (active, standby) := Versions(StoredVersion(ks));
    var ids := FileIds(ds);
    var f := Flipped(ks, ds);
    var stale := StaleStatKeys(ks, ids);
    StaleStatKeysFlipped(ks, ds);
    if k != KeyActiveVersion && !InGeneration(k, standby) {
      FlippedKeeps(ks, ds, k);
    }
    if k in f && InGeneration(k, standby) {
      FlippedWritten(ks, ds, k);
    }
    if k in stale {
      StaleOutsideGenerations(ks, ids, k, standby);
      StaleOutsideGenerations(ks, ids, k, active);
    }
    if InGeneration(k, active) {
      OutsideGenerations(KeyActiveVersion, active);
      GenerationsDisjoint(k);
    }
    DeletionFootprint(ks, f, Published(ks, ds), stale, KeysOf(SaveCommands(standby, ds)), active, standby, k);
  }

  /** As written, a successful Save keeps every counter of the hash `fs`,
      those of files that left the batch included. */
  lemma PublishedCounters(ks: Keyspace, ds: seq<Download>, id: string)
    ensures HGet(Published(ks, ds), KeyFileStats, id) == HGet(ks, KeyFileStats, id)
  {
    var standby := Versions(StoredVersion(ks)).1;
    OutsideGenerations(KeyFileStats, standby);
    FlippedKeeps(ks, ds, KeyFileStats);
  }

  /** With the intended prune, a successful Save leaves every key of the
      generation that was active as it was, and every key outside both
      generations other than the version key and the counters. */
  lemma PublishedFootprintCorrected(ks: Keyspace, ds: seq<Download>, k: string)
    ensures var (active, standby) := Versions(StoredVersion(ks));
      var p := PublishedCorrected(ks, ds);
      (InGeneration(k, active) ==> Agree(p, ks, k)) &&
      (k != KeyActiveVersion && k != KeyFileStats && !InGeneration(k, standby) ==> Agree(p, ks, k)) &&
      (k in p && InGeneration(k, standby) ==> k in KeysOf(SaveCommands(standby, ds)))
  {
    var (active, standby) := Versions(StoredVersion(ks));
    var f := Flipped(ks, ds);
    var p := PublishedCorrected(ks, ds);
    if InGeneration(k, standby) {
      PruneKeepsGeneration(ks, ds, k);
      if k in p {
        FlippedWritten(ks, ds, k);
      }
    } else if k != KeyActiveVersion && k != KeyFileStats {
      FlippedKeeps(ks, ds, k);
      assert Agree(p, f, k);
    }
    if InGeneration(k, active) {
      OutsideGenerations(KeyActiveVersion, active);
      OutsideGenerations(KeyFileStats, active);
      GenerationsDisjoint(k);
    }
  }

  /** With the intended prune, a file of the batch keeps its counter after
      a successful Save and any other file reads as having none. */
  lemma PublishedCountersCorrected(ks: Keyspace, ds: seq<Download>, id: string)
    requires HashLike(ks, KeyFileStats)
    ensures HGet(PublishedCorrected(ks, ds), KeyFileStats, id) == if id in FileIds(ds) then HGet(ks, KeyFileStats, id) else Nil
  {
    var standby := Versions(StoredVersion(ks)).1;
    OutsideGenerations(KeyFileStats, standby);
    FlippedKeeps(ks, ds, KeyFileStats);
    PruneCountersRead(Flipped(ks, ds), FileIds(ds), id);
  }

  /** A pipeline cut short after clearOldData still only touches the
      generation. */
  lemma PartialSave(ks: Keyspace, ver: string, ds: seq<Download>, n: nat, k: string)
    requires n <= |SaveCommands(ver, ds)|
    requires !InGeneration(k, ver)
    ensures Agree(Run(ClearGeneration(ks, ver), SaveCommands(ver, ds)[..n]), ks, k)
  {
    var cmds := SaveCommands(ver, ds);
    SaveCommandsWriteGeneration(ver, ds);
    RunPrefixKeys(cmds, n);
    ClearedShape(ks, ver);
    Untouched(ClearGeneration(ks, ver), cmds[..n], k);
  }

  /** The intended prune's HDELs on `fs` of fields outside `ids`, even cut
      short, keep every counter of `ids` and every other key. */
  lemma PartialPrune(ks: Keyspace, cmds: seq<Command>, n: nat, ids: set<string>)
    requires n <= |cmds| && HashLike(ks, KeyFileStats)
    requires forall i :: 0 <= i < |cmds| ==> cmds[i].HDel? && cmds[i].key == KeyFileStats
    requires forall f :: f in FieldsOf(cmds) ==> f !in ids
    ensures forall k :: k != KeyFileStats ==> Agree(Run(ks, cmds[..n]), ks, k)
    ensures forall id :: id in ids ==> HGet(Run(ks, cmds[..n]), KeyFileStats, id) == HGet(ks, KeyFileStats, id)
  {
    if n > 0 {
      FieldsOfPrefix(cmds, n);
      RunHDels(ks, cmds[..n], KeyFileStats);
      WithoutFieldsFrame(ks, KeyFileStats, FieldsOf(cmds[..n]));
    } else {
      assert cmds[..n] == [];
    }
  }

  /** Deleting fields of one hash keeps its other fields and every other key. */
  lemma WithoutFieldsFrame(ks: Keyspace, key: string, fields: set<string>)
    requires HashLike(ks, key)
    ensures forall k :: k != key ==> Agree(WithoutFields(ks, key, fields), ks, k)
    ensures forall f :: f !in fields ==> HGet(WithoutFields(ks, key, fields), key, f) == HGet(ks, key, f)
  {
    var kept := Fields(ks, key) - fields;
    forall f | f !in fields
      ensures HGet(WithoutFields(ks, key, fields), key, f) == HGet(ks, key, f)
    {
      if f in Fields(ks, key) {
        assert f in kept;
      }
    }
  }

  // ---------------------------------------------------------------------
  // What every outcome of Save keeps

  /** As written: `now` differs from `before` only in generation `standby`,
      the version key, and stale `fs:` keys it has deleted. */
  ghost predicate SaveFootprint(now: Keyspace, before: Keyspace, standby: string, ids: set<string>)
  {
    forall k :: k != KeyActiveVersion && !InGeneration(k, standby) ==>
      Agree(now, before, k) || (k in StaleStatKeys(before, ids) && k !in now)
  }

  /** With the intended prune: `now` differs from `before` only in
      generation `standby`, the version key and the counter hash. */
  ghost predicate StandbyOnly(now: Keyspace, before: Keyspace, standby: string)
  {
    forall k :: k != KeyActiveVersion && k != KeyFileStats && !InGeneration(k, standby) ==> Agree(now, before, k)
  }

  /** Every file of `ids` reads the same counter in `now` as in `before`. */
  ghost predicate CountersKept(now: Keyspace, before: Keyspace, ids: set<string>)
  {
    forall id :: id in ids ==> HGet(now, KeyFileStats, id) == HGet(before, KeyFileStats, id)
  }

  /** A change within Save's footprint leaves the other generation and the
      counter hash as they were. */
  lemma SaveFootprintKeeps(now: Keyspace, before: Keyspace, standby: string, ids: set<string>)
    requires IsVersion(standby) && SaveFootprint(now, before, standby, ids)
    ensures forall k :: InGeneration(k, Other(standby)) ==> Agree(now, before, k)
    ensures Agree(now, before, KeyFileStats)
  {
    OutsideGenerations(KeyActiveVersion, Other(standby));
    OutsideGenerations(KeyFileStats, standby);
    forall k | InGeneration(k, Other(standby)) ensures Agree(now, before, k) {
      GenerationsDisjoint(k);
      if k in StaleStatKeys(before, ids) {
        StaleOutsideGenerations(before, ids, k, Other(standby));
      }
    }
  }

  /** A change confined to the standby generation, the version key and the
      counter hash leaves the other generation as it was. */
  lemma StandbyOnlyKeepsActive(now: Keyspace, before: Keyspace, standby: string)
    requires IsVersion(standby) && StandbyOnly(now, before, standby)
    ensures forall k :: InGeneration(k, Other(standby)) ==> Agree(now, before, k)
  {
    OutsideGenerations(KeyActiveVersion, Other(standby));
    OutsideGenerations(KeyFileStats, Other(standby));
    forall k ensures InGeneration(k, Other(standby)) ==> Agree(now, before, k) {
      GenerationsDisjoint(k);
    }
  }

  /** Save's outcome as written, whatever step failed: the first three
      steps stayed in the standby generation and the version key, the flip
      wrote only the version key, and the prune only deleted stale `fs:`
      keys; so the counter hash is as it was. */
  lemma SaveOutcome(start: Keyspace, staged: Keyspace, flipped: Keyspace, now: Keyspace, standby: string, ids: set<string>)
    requires IsVersion(standby)
    requires forall k :: k != KeyActiveVersion && !InGeneration(k, standby) ==> Agree(staged, start, k)
    requires forall k :: k != KeyActiveVersion ==> Agree(flipped, staged, k)
    requires SubMap(now, flipped)
    requires forall k :: k !in StaleStatKeys(flipped, ids) ==> Agree(now, flipped, k)
    ensures SaveFootprint(now, start, standby, ids) && Agree(now, start, KeyFileStats)
  {
    forall k | k != KeyActiveVersion && !InGeneration(k, standby)
      ensures Agree(now, start, k) || (k in StaleStatKeys(start, ids) && k !in now)
    {
      assert Agree(staged, start, k) && Agree(flipped, staged, k);
      if k in StaleStatKeys(flipped, ids) {
        assert k in StaleStatKeys(start, ids);
      } else {
        assert Agree(now, flipped, k);
      }
    }
    SaveFootprintKeeps(now, start, standby, ids);
  }

  /** Save's outcome with the intended prune, whatever step failed: the
      first three steps stayed in the standby generation and the version
      key, the flip wrote only the version key and the prune only the
      counter hash, keeping the counters of the batch. */
  lemma SaveOutcomeCorrected(start: Keyspace, staged: Keyspace, flipped: Keyspace, now: Keyspace, standby: string, ids: set<string>)
    requires IsVersion(standby)
    requires forall k :: k != KeyActiveVersion && !InGeneration(k, standby) ==> Agree(staged, start, k)
    requires forall k :: k != KeyActiveVersion ==> Agree(flipped, staged, k)
    requires forall k :: k != KeyFileStats ==> Agree(now, flipped, k)
    requires CountersKept(now, flipped, ids)
    ensures StandbyOnly(now, start, standby) && CountersKept(now, start, ids)
  {
    OutsideGenerations(KeyFileStats, standby);
    assert Agree(staged, start, KeyFileStats) && Agree(flipped, staged, KeyFileStats);
    forall k | k != KeyActiveVersion && k != KeyFileStats && !InGeneration(k, standby)
      ensures Agree(now, start, k)
    {
      assert Agree(staged, start, k) && Agree(flipped, staged, k) && Agree(now, flipped, k);
    }
  }

  /** As written, a prune that failed part-way differs from the whole
      prune only in stale `fs:` keys it has not deleted yet. */
  lemma PrunedElsewhere(flipped: Keyspace, now: Keyspace, ids: set<string>)
    requires SubMap(now, flipped)
    requires forall k :: k !in StaleStatKeys(flipped, ids) ==> Agree(now, flipped, k)
    ensures forall k :: Agree(now, flipped - StaleStatKeys(flipped, ids), k) ||
                        (k in StaleStatKeys(flipped, ids) && k in now && now[k] == flipped[k])
  {
  }

  /** With the intended prune, a prune that failed part-way still agrees
      with the full prune on every key but the counter hash. */
  lemma PrunedElsewhereCorrected(flipped: Keyspace, now: Keyspace, ids: set<string>)
    requires forall k :: k != KeyFileStats ==> Agree(now, flipped, k)
    ensures forall k :: k != KeyFileStats ==> Agree(now, PruneCounters(flipped, ids), k)
  {
    var p := PruneCounters(flipped, ids);
    forall k | k != KeyFileStats ensures Agree(now, p, k) {
      assert Agree(p, flipped, k) && Agree(now, flipped, k);
    }
  }
}
