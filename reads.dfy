/** What the read paths of the download repository
    (internal/repository/download/download.go) answer for a keyspace, and
    what they answer right after a successful Save. */
module Reads {
  import opened Common
  import opened Redis
  import opened Keys
  import opened Entity
  import opened Stages
  import Decimal

  // ---------------------------------------------------------------------
  // Info

  /** One row per download of generation `ver`. */
  function InfoRows(ks: Keyspace, ver: string): set<ShareInfo>
  {
    var m := Fields(ks, GenKey(KeyDownloadMap, ver));
    set id | id in m :: ShareInfo(id, m[id], |Fields(ks, DownloadFilesKey(ver, id))|)
  }

  /** Info's answer when no round trip fails: the error of reading `dm:ver`,
      NoDownloadsFound when it is empty, the error of reading one of the
      `dfm` hashes, or the rows. */
  function InfoOutcome(ks: Keyspace, ver: string): Result<set<ShareInfo>>
  {
    match HGetAll(ks, GenKey(KeyDownloadMap, ver))
    case Err(e) => Err(Wrapped("cannot get download map", e))
    case Ok(m) =>
      if |m| == 0 then Err(NoDownloadsFound)
      else if exists id :: id in m && HGetAll(ks, DownloadFilesKey(ver, id)).Err? then
        Err(Wrapped("cannot get download files", WrongType))
      else Ok(InfoRows(ks, ver))
  }

  /** The rows of a list, as a set. */
  function RowSet(infos: seq<ShareInfo>): set<ShareInfo>
  {
    set i | 0 <= i < |infos| :: infos[i]
  }

  /** Info's rows, listed in the order the folder map was visited, are
      exactly the rows of the generation, one per download. */
  lemma RowsInOrder(ks: Keyspace, ver: string, order: seq<string>, infos: seq<ShareInfo>)
    requires var m := Fields(ks, GenKey(KeyDownloadMap, ver));
      (forall k :: k in m <==> k in order) && |infos| == |order| &&
      forall j :: 0 <= j < |order| ==> infos[j] == ShareInfo(order[j], m[order[j]], |Fields(ks, DownloadFilesKey(ver, order[j]))|)
    ensures RowSet(infos) == InfoRows(ks, ver)
  {
    var m := Fields(ks, GenKey(KeyDownloadMap, ver));
    forall x | x in InfoRows(ks, ver) ensures x in RowSet(infos) {
      var id :| id in m && x == ShareInfo(id, m[id], |Fields(ks, DownloadFilesKey(ver, id))|);
      var j :| 0 <= j < |order| && order[j] == id;
      assert infos[j] == x;
    }
  }

  // ---------------------------------------------------------------------
  // Counters

  /** GetDownloadCounters' reading of one counter: no field reads as 0, a
      field must parse as a decimal int; an error or a value that does not
      parse drops the file (None). */
  function StoredCounter(ks: Keyspace, fileId: string): Option<int>
  {
    match HGet(ks, KeyFileStats, fileId)
    case Nil => Some(0)
    case Val(s) => Decimal.ParseInt(s)
    case Failed(_) => None
  }

  /** The counter DownloadCounterIterator reports for one file: the parsed
      value, and 0 for a missing field, an error or a value that does not
      parse. */
  function DumpCounter(ks: Keyspace, fileId: string): int
  {
    match HGet(ks, KeyFileStats, fileId)
    case Val(s) => if Decimal.ParseInt(s).Some? then Decimal.ParseInt(s).value else 0
    case _ => 0
  }

  /** The ids of a list of file counters. */
  function CounterIds(fcs: seq<FileCounter>): set<string>
  {
    set i | 0 <= i < |fcs| :: fcs[i].id
  }

  /** `fcs` lists every file of `files` exactly once, with its url as
      source path and no name. */
  predicate ListsFiles(fcs: seq<FileCounter>, files: map<string, string>)
  {
    CounterIds(fcs) == files.Keys && |fcs| == |files| &&
    (forall i, j :: 0 <= i < j < |fcs| ==> fcs[i].id != fcs[j].id) &&
    (forall i :: 0 <= i < |fcs| ==> fcs[i].id in files && fcs[i].sourcePath == files[fcs[i].id] && fcs[i].name == "")
  }

  lemma CounterIdsAppend(fcs: seq<FileCounter>, fc: FileCounter)
    ensures CounterIds(fcs + [fc]) == CounterIds(fcs) + {fc.id}
  {
    var all := fcs + [fc];
    forall x | x in CounterIds(all) ensures x in CounterIds(fcs) + {fc.id} {
      var i :| 0 <= i < |all| && all[i].id == x;
      if i < |fcs| { assert all[i] == fcs[i]; }
    }
    forall x | x in CounterIds(fcs) ensures x in CounterIds(all) {
      var i :| 0 <= i < |fcs| && fcs[i].id == x;
      assert all[i] == fcs[i];
    }
    assert all[|fcs|] == fc;
  }

  /** Setting the counters of a listing keeps it a listing of the same
      files. */
  lemma FilledListsFiles(fcs: seq<FileCounter>, out: seq<FileCounter>, files: map<string, string>)
    requires ListsFiles(fcs, files) && |out| == |fcs|
    requires forall i :: 0 <= i < |out| ==> out[i] == fcs[i].(counter := out[i].counter)
    ensures ListsFiles(out, files)
  {
    assert CounterIds(out) == CounterIds(fcs) by {
      forall x | x in CounterIds(out) ensures x in CounterIds(fcs) {
        var i :| 0 <= i < |out| && out[i].id == x;
        assert fcs[i].id == x;
      }
      forall x | x in CounterIds(fcs) ensures x in CounterIds(out) {
        var i :| 0 <= i < |fcs| && fcs[i].id == x;
        assert out[i].id == x;
      }
    }
  }

  /** What the dump holds for one folder: every file of its `dfm` hash once,
      with the counter DumpCounter reads. */
  predicate CountersOf(ks: Keyspace, ver: string, dc: DownloadCounters)
  {
    ListsFiles(dc.files, Fields(ks, DownloadFilesKey(ver, dc.id))) &&
    forall i :: 0 <= i < |dc.files| ==> dc.files[i].counter == DumpCounter(ks, dc.files[i].id)
  }

  /** go-redis reports a pipeline's first failed command as the error of
      Exec, and that includes an HGET that found no field (redis.Nil). */
  function PipelineError(ks: Keyspace, fcs: seq<FileCounter>): Option<Error>
  {
    if fcs == [] then None
    else match HGet(ks, KeyFileStats, fcs[0].id)
      case Nil => Some(NilReply)
      case Failed(e) => Some(e)
      case Val(_) => PipelineError(ks, fcs[1..])
  }

  /** The pipeline as written fails exactly when some file of the folder has
      no counter (or `fs` is not a hash). */
  lemma {:induction false} PipelineErrorWhen(ks: Keyspace, fcs: seq<FileCounter>)
    ensures PipelineError(ks, fcs).None? <==> forall i :: 0 <= i < |fcs| ==> HGet(ks, KeyFileStats, fcs[i].id).Val?
  {
    if fcs != [] {
      PipelineErrorWhen(ks, fcs[1..]);
      assert forall i :: 1 <= i < |fcs| ==> fcs[1..][i - 1] == fcs[i];
    }
  }

  /** The only replies that fail the pipeline are a missing field and a
      type error. */
  lemma {:induction false} PipelineErrorCause(ks: Keyspace, fcs: seq<FileCounter>)
    ensures PipelineError(ks, fcs).Some? ==> PipelineError(ks, fcs).value in {NilReply, WrongType}
  {
    if fcs != [] {
      PipelineErrorCause(ks, fcs[1..]);
    }
  }

  /** A folder with a file that was never downloaded: the as-written dump
      aborts on it, where the per-file handling reads its counter as 0. */
  lemma UncountedFileAbortsDump()
    ensures var ks: Keyspace := map[DownloadFilesKey(KeyVersion1, "d") := Hash(map["f" := "/f"])];
      var fcs := [FileCounter("f", "", "/f", 0)];
      ListsFiles(fcs, Fields(ks, DownloadFilesKey(KeyVersion1, "d"))) &&
      PipelineError(ks, fcs) == Some(NilReply) && DumpCounter(ks, "f") == 0
  {
    var ks: Keyspace := map[DownloadFilesKey(KeyVersion1, "d") := Hash(map["f" := "/f"])];
    var fcs := [FileCounter("f", "", "/f", 0)];
    assert KeyFileStats != DownloadFilesKey(KeyVersion1, "d") by {
      assert KeyFileStats[0] == 'f' && DownloadFilesKey(KeyVersion1, "d")[0] == 'd';
    }
    assert CounterIds(fcs) == {"f"} by {
      assert fcs[0].id == "f";
    }
  }

  /** The two readings agree wherever GetDownloadCounters keeps a file. */
  lemma CounterReadingsAgree(ks: Keyspace, fileId: string)
    ensures StoredCounter(ks, fileId).Some? ==> DumpCounter(ks, fileId) == StoredCounter(ks, fileId).value
    ensures StoredCounter(ks, fileId).None? ==> DumpCounter(ks, fileId) == 0
  {
  }

  /** IncFileCounter's HINCRBY succeeds exactly when `fs` is a hash (or
      absent), the field is absent or canonical, and the sum stays within
      64 bits. */
  lemma IncrementOutcome(ks: Keyspace, fileId: string)
    ensures var r := HIncrBy(ks, KeyFileStats, fileId, 1);
      r.Ok? <==> (HashLike(ks, KeyFileStats) &&
                  (fileId in Fields(ks, KeyFileStats) ==> Decimal.ParseCanonical(Fields(ks, KeyFileStats)[fileId]).Some?) &&
                  StoredCounter(ks, fileId).Some? && StoredCounter(ks, fileId).value < Decimal.MaxInt64)
  {
    var m := Fields(ks, KeyFileStats);
    if HashLike(ks, KeyFileStats) && fileId in m {
      var c := Decimal.ParseCanonical(m[fileId]);
      if c.Some? {
        assert Decimal.ParseInt(m[fileId]) == c;
      }
    }
  }

  /** On success the field holds the previous counter plus one, and that
      is what the next GetDownloadCounters or dump reads. */
  lemma IncrementThenRead(ks: Keyspace, fileId: string)
    ensures var r := HIncrBy(ks, KeyFileStats, fileId, 1);
      r.Ok? ==> r.value.1 == StoredCounter(ks, fileId).value + 1 &&
                StoredCounter(r.value.0, fileId) == Some(r.value.1) &&
                DumpCounter(r.value.0, fileId) == r.value.1
  {
    var m := Fields(ks, KeyFileStats);
    var r := HIncrBy(ks, KeyFileStats, fileId, 1);
    if r.Ok? {
      var cur := if fileId in m then Decimal.ParseCanonical(m[fileId]) else Some(0);
      if fileId in m {
        assert Decimal.ParseInt(m[fileId]) == cur;
      }
      assert StoredCounter(ks, fileId) == cur;
      var n := cur.value + 1;
      assert r.value == (ks[KeyFileStats := Hash(m[fileId := Decimal.FormatInt(n)])], n);
      Decimal.ParseFormat(n);
      assert HGet(r.value.0, KeyFileStats, fileId) == Val(Decimal.FormatInt(n));
    }
  }

  /** The increment changes no other field of `fs` and no other key. */
  lemma IncrementFrame(ks: Keyspace, fileId: string)
    ensures var r := HIncrBy(ks, KeyFileStats, fileId, 1);
      r.Ok? ==> forall other :: other != fileId ==> HGet(r.value.0, KeyFileStats, other) == HGet(ks, KeyFileStats, other)
    ensures var r := HIncrBy(ks, KeyFileStats, fileId, 1);
      r.Ok? ==> forall k :: k != KeyFileStats ==> Agree(r.value.0, ks, k)
  {
    var m := Fields(ks, KeyFileStats);
    var r := HIncrBy(ks, KeyFileStats, fileId, 1);
    if r.Ok? {
      assert r.value.0 == ks[KeyFileStats := Hash(m[fileId := Decimal.FormatInt(r.value.1)])];
    }
  }

  // ---------------------------------------------------------------------
  // Reads right after a successful Save

  /** The four hashes of the new generation hold hashes (or nothing), so
      every read of them is answered without a type error. */
  lemma PublishedHashLike(ks: Keyspace, ds: seq<Download>, id: string)
    ensures var standby := Versions(StoredVersion(ks)).1;
      var p := Published(ks, ds);
      HashLike(p, GenKey(KeyDownloadMap, standby)) && HashLike(p, GenKey(KeyPageContent, standby)) &&
      HashLike(p, GenKey(KeyFilesMap, standby)) && HashLike(p, DownloadFilesKey(standby, id))
  {
    var standby := Versions(StoredVersion(ks)).1;
    var reset := Reset(ks);
    var cleared, cmds := ClearGeneration(reset, standby), SaveCommands(standby, ds);
    var staged := Staged(reset, standby, ds);
    SaveCommandsWriteGeneration(standby, ds);
    assert AllHSet(cmds);
    ClearedShape(reset, standby);
    WrittenKeysInGeneration(standby, id);
    RunHSetFields(cleared, cmds, GenKey(KeyDownloadMap, standby));
    RunHSetFields(cleared, cmds, GenKey(KeyPageContent, standby));
    RunHSetFields(cleared, cmds, GenKey(KeyFilesMap, standby));
    RunHSetFields(cleared, cmds, DownloadFilesKey(standby, id));
    OutsideGenerations(KeyActiveVersion, standby);
    OutsideGenerations(KeyFileStats, standby);
    PruneKeepsGeneration(ks, ds, GenKey(KeyDownloadMap, standby));
    PruneKeepsGeneration(ks, ds, GenKey(KeyPageContent, standby));
    PruneKeepsGeneration(ks, ds, GenKey(KeyFilesMap, standby));
    PruneKeepsGeneration(ks, ds, DownloadFilesKey(standby, id));
  }

  /** After Save, GetFilePath of a file of the batch under the new version
      returns its url, and a file not in the batch is not found. */
  lemma FilePathAfterSave(ks: Keyspace, ds: seq<Download>, id: string)
    requires ConsistentUrls(ds)
    ensures var standby := Versions(StoredVersion(ks)).1;
      var reply := HGet(Published(ks, ds), GenKey(KeyFilesMap, standby), id);
      (id !in FileIds(ds) ==> reply == Nil) &&
      (forall d, f :: d in ds && f in d.files && f.id == id ==> reply == Val(f.url))
  {
    var standby := Versions(StoredVersion(ks)).1;
    var p := Published(ks, ds);
    var key := GenKey(KeyFilesMap, standby);
    PublishedHashLike(ks, ds, "");
    PublishedGeneration(ks, ds, "");
    assert HashLike(p, key) && Fields(p, key) == FileMap(ds);
    FileMapKeys(ds);
    forall d, f | d in ds && f in d.files && f.id == id
      ensures HGet(p, key, id) == Val(f.url)
    {
      FileMapUrl(ds, d, f);
    }
  }

  /** After Save, GetPage of a download of the batch returns the page of
      the last download with that id, and any other id has no page. */
  lemma PageAfterSave(ks: Keyspace, ds: seq<Download>, id: string)
    ensures var standby := Versions(StoredVersion(ks)).1;
      var reply := HGet(Published(ks, ds), GenKey(KeyPageContent, standby), id);
      ((forall d :: d in ds ==> d.id != id) ==> reply == Nil) &&
      (forall i :: LastWithId(ds, i) && ds[i].id == id ==> reply == Val(ds[i].pageContent))
  {
    var standby := Versions(StoredVersion(ks)).1;
    var p := Published(ks, ds);
    PublishedHashLike(ks, ds, "");
    PublishedGeneration(ks, ds, "");
    DownloadMapKeys(ds);
    forall i | LastWithId(ds, i) && ds[i].id == id
      ensures HGet(p, GenKey(KeyPageContent, standby), id) == Val(ds[i].pageContent)
    {
      DownloadMapLast(ds, i);
    }
  }

  /** Info answers with its rows when `dm:ver` is a non-empty hash and every
      `dfm` hash it names is a hash (or absent). */
  lemma InfoOutcomeRows(ks: Keyspace, ver: string)
    requires HashLike(ks, GenKey(KeyDownloadMap, ver)) && |Fields(ks, GenKey(KeyDownloadMap, ver))| > 0
    requires forall id :: id in Fields(ks, GenKey(KeyDownloadMap, ver)) ==> HashLike(ks, DownloadFilesKey(ver, id))
    ensures InfoOutcome(ks, ver) == Ok(InfoRows(ks, ver))
  {
    var m := Fields(ks, GenKey(KeyDownloadMap, ver));
    assert HGetAll(ks, GenKey(KeyDownloadMap, ver)) == Ok(m);
    assert !exists id :: id in m && HGetAll(ks, DownloadFilesKey(ver, id)).Err?;
  }

  /** The rows after Save: one per download id of the batch, with the
      folder and file map the batch gives it. */
  lemma InfoRowsAfterSave(ks: Keyspace, ds: seq<Download>)
    ensures InfoRows(Published(ks, ds), Versions(StoredVersion(ks)).1) ==
      set id | id in DownloadMap(ds) :: ShareInfo(id, DownloadMap(ds)[id], |DownloadFilesMap(ds, id)|)
  {
    var standby := Versions(StoredVersion(ks)).1;
    var p := Published(ks, ds);
    PublishedGeneration(ks, ds, "");
    var m := DownloadMap(ds);
    assert Fields(p, GenKey(KeyDownloadMap, standby)) == m;
    forall id | id in m
      ensures |Fields(p, DownloadFilesKey(standby, id))| == |DownloadFilesMap(ds, id)|
    {
      PublishedGeneration(ks, ds, id);
    }
  }

  /** After Save of a non-empty batch, Info under the new version lists one
      row per download of the batch, with its folder and its number of
      distinct file ids; after Save of an empty batch it reports that no
      download was found. */
  lemma InfoAfterSave(ks: Keyspace, ds: seq<Download>)
    ensures var standby := Versions(StoredVersion(ks)).1;
      var outcome := InfoOutcome(Published(ks, ds), standby);
      (ds == [] ==> outcome == Err(NoDownloadsFound)) &&
      (ds != [] ==> outcome == Ok(set id | id in DownloadMap(ds) :: ShareInfo(id, DownloadMap(ds)[id], |DownloadFilesMap(ds, id)|)))
  {
    var standby := Versions(StoredVersion(ks)).1;
    var p := Published(ks, ds);
    var dmKey := GenKey(KeyDownloadMap, standby);
    PublishedHashLike(ks, ds, "");
    PublishedGeneration(ks, ds, "");
    DownloadMapKeys(ds);
    var m := DownloadMap(ds);
    assert Fields(p, dmKey) == m;
    if ds != [] {
      assert ds[0].id in m;
      forall id | id in m ensures HashLike(p, DownloadFilesKey(standby, id)) {
        PublishedHashLike(ks, ds, id);
      }
      InfoOutcomeRows(p, standby);
      InfoRowsAfterSave(ks, ds);
    } else {
      assert HGetAll(p, dmKey) == Ok(map[]);
    }
  }
}
