/** The index orchestrator of internal/service/index/index.go: a run scans
    the work directory, publishes the downloads found and answers the
    summary of the new generation; a dump writes every download's counters
    as a JSON array. Both hold one shared single-flight flag. */
module IndexService {
  import opened Common
  import opened Redis
  import opened Keys
  import opened Entity
  import opened Stages
  import opened Reads
  import opened Storage
  import Repo = Download

  // ---------------------------------------------------------------------
  // The dump's framing

  /** The items of a dump: each encoding ends with the newline the JSON
      encoder adds, and a comma goes before every item but the first. */
  function Items(encs: seq<string>): string
  {
    if encs == [] then ""
    else
      var init, last := encs[..|encs| - 1], encs[|encs| - 1];
      Items(init) + (if init == [] then "" else ",") + last + "\n"
  }

  /** A complete dump: the items between "[\n" and "]". */
  function Dump(encs: seq<string>): string
  {
    "[\n" + Items(encs) + "]"
  }

  /** The items, joined front to back. */
  function JoinLines(encs: seq<string>): string
  {
    if encs == [] then ""
    else if |encs| == 1 then encs[0] + "\n"
    else encs[0] + "\n" + "," + JoinLines(encs[1..])
  }

  /** The dump, as written item after item, is the items joined with commas. */
  lemma {:induction false} ItemsJoin(encs: seq<string>)
    ensures Items(encs) == JoinLines(encs)
  {
    if |encs| > 1 {
      var init := encs[..|encs| - 1];
      ItemsJoin(init);
      ItemsJoin(encs[1..]);
      assert encs[1..][..|encs[1..]| - 1] == init[1..];
      ItemsJoin(init[1..]);
      if |init| == 1 {
        assert init[1..] == [];
      } else {
        assert init[1..] != [];
      }
    } else if |encs| == 1 {
      assert encs[..0] == [];
    }
  }

  /** Items never end with "]": it is written only by a complete dump. */
  lemma ItemsEnd(encs: seq<string>)
    ensures var s := Items(encs); s == "" || s[|s| - 1] == '\n'
  {
  }

  /** The encodings of the dumped downloads, in order. */
  function Encodings(items: seq<DownloadCounters>, encode: DownloadCounters -> Result<string>): (encs: seq<string>)
    requires forall i :: 0 <= i < |items| ==> encode(items[i]).Ok?
    ensures |encs| == |items| && forall i :: 0 <= i < |items| ==> encode(items[i]) == Ok(encs[i])
  {
    seq(|items|, i requires 0 <= i < |items| => encode(items[i]).value)
  }

  /** `encs` are the encodings of `items`, one for one. */
  predicate Encoded(items: seq<DownloadCounters>, encs: seq<string>, encode: DownloadCounters -> Result<string>)
  {
    |encs| == |items| && forall i :: 0 <= i < |items| ==> encode(items[i]) == Ok(encs[i])
  }

  lemma EncodedAppend(items: seq<DownloadCounters>, encs: seq<string>, encode: DownloadCounters -> Result<string>, dc: DownloadCounters)
    requires Encoded(items, encs, encode) && encode(dc).Ok?
    ensures Encoded(items + [dc], encs + [encode(dc).value], encode)
  {
  }

  lemma EncodedAll(items: seq<DownloadCounters>, encs: seq<string>, encode: DownloadCounters -> Result<string>)
    requires Encoded(items, encs, encode)
    ensures (forall i :: 0 <= i < |items| ==> encode(items[i]).Ok?) && encs == Encodings(items, encode)
  {
  }

  /** The ids of the dumped downloads. */
  function ItemIds(items: seq<DownloadCounters>): set<string>
  {
    set i | 0 <= i < |items| :: items[i].id
  }

  /** Every dumped download carries the counters of its files. */
  predicate AllCounted(ks: Keyspace, ver: string, items: seq<DownloadCounters>)
  {
    items == [] ||
    (AllCounted(ks, ver, items[..|items| - 1]) && CountersOf(ks, ver, items[|items| - 1]))
  }

  lemma {:induction false} AllCountedEach(ks: Keyspace, ver: string, items: seq<DownloadCounters>)
    ensures AllCounted(ks, ver, items) <==> forall i :: 0 <= i < |items| ==> CountersOf(ks, ver, items[i])
  {
    if items != [] {
      var init := items[..|items| - 1];
      AllCountedEach(ks, ver, init);
      assert forall i :: 0 <= i < |init| ==> init[i] == items[i];
    }
  }

  /** No download is dumped twice. */
  predicate DistinctIds(items: seq<DownloadCounters>)
  {
    forall i, j :: 0 <= i < j < |items| ==> items[i].id != items[j].id
  }

  /** The dump so far and the iterator's pending folders split the
      folders between them, and no folder is dumped twice. */
  predicate Progress(items: seq<DownloadCounters>, pending: set<string>, folders: set<string>)
  {
    ItemIds(items) !! pending && ItemIds(items) + pending == folders && DistinctIds(items)
  }

  /** Before the first item every folder is pending. */
  lemma ProgressStart(folders: set<string>)
    ensures Progress([], folders, folders)
  {
    assert ItemIds([]) == {};
  }

  /** Once nothing is pending, every folder has been dumped. */
  lemma ProgressDone(items: seq<DownloadCounters>, folders: set<string>)
    requires Progress(items, {}, folders)
    ensures ItemIds(items) == folders && DistinctIds(items)
  {
  }

  /** Dumping a pending folder moves it from pending to dumped. */
  lemma ProgressStep(items: seq<DownloadCounters>, pending: set<string>, folders: set<string>, dc: DownloadCounters)
    requires Progress(items, pending, folders) && dc.id in pending
    ensures Progress(items + [dc], pending - {dc.id}, folders)
  {
    var s := items + [dc];
    assert forall i :: 0 <= i < |items| ==> s[i] == items[i] && items[i].id in ItemIds(items);
    assert s[|items|] == dc;
    assert ItemIds(s) == ItemIds(items) + {dc.id};
  }

  /** Every file of every dumped download has a counter in `fs`: the as
      written pipeline fails on a file without one. */
  predicate FilesCounted(ks: Keyspace, items: seq<DownloadCounters>)
  {
    forall i, j :: 0 <= i < |items| && 0 <= j < |items[i].files| ==> HGet(ks, KeyFileStats, items[i].files[j].id).Val?
  }

  /** A dump that covered `folders` with every file counted: no file listed
      under any of these folders is without a counter. */
  lemma DumpedFilesCounted(ks: Keyspace, ver: string, items: seq<DownloadCounters>, folders: set<string>)
    requires AllCounted(ks, ver, items) && FilesCounted(ks, items) && ItemIds(items) == folders
    ensures forall id, f :: id in folders && f in Fields(ks, DownloadFilesKey(ver, id)) ==> HGet(ks, KeyFileStats, f).Val?
  {
    AllCountedEach(ks, ver, items);
    forall id, f | id in folders && f in Fields(ks, DownloadFilesKey(ver, id))
      ensures HGet(ks, KeyFileStats, f).Val?
    {
      var i :| 0 <= i < |items| && items[i].id == id;
      assert CountersOf(ks, ver, items[i]);
      ListedCounted(ks, items[i].files, Fields(ks, DownloadFilesKey(ver, id)), f);
    }
  }

  /** A file of a listing whose every entry has a counter has a counter. */
  lemma ListedCounted(ks: Keyspace, fcs: seq<FileCounter>, files: map<string, string>, f: string)
    requires ListsFiles(fcs, files) && f in files
    requires forall j :: 0 <= j < |fcs| ==> HGet(ks, KeyFileStats, fcs[j].id).Val?
    ensures HGet(ks, KeyFileStats, f).Val?
  {
    assert f in CounterIds(fcs);
  }

  /** One step of the iterator as the program takes it, with what it
      yields folded into the counters dumped so far. */
  method Pull(iter: Repo.CounterIterator, ghost items: seq<DownloadCounters>) returns (item: Option<Result<DownloadCounters>>)
    requires iter.Valid() && AllCounted(iter.store.keys, iter.ver, items) && FilesCounted(iter.store.keys, items)
    modifies iter
    ensures iter.Valid() && iter.pending <= old(iter.pending)
    ensures item.None? ==> old(iter.pending) == {}
    ensures item.Some? && item.value.Ok? ==>
              item.value.value.id in old(iter.pending) && iter.pending == old(iter.pending) - {item.value.value.id} &&
              |iter.pending| < old(|iter.pending|) &&
              AllCounted(iter.store.keys, iter.ver, items + [item.value.value]) &&
              FilesCounted(iter.store.keys, items + [item.value.value])
  {
    ghost var lost;
    item, lost := iter.NextAsWritten();
    if item.Some? && item.value.Ok? {
      var s := items + [item.value.value];
      assert s[..|items|] == items;
      assert forall i :: 0 <= i < |items| ==> s[i] == items[i];
    }
  }

  /** How one turn of the dump loop ended. */
  datatype DumpStep = Pulled | Exhausted | Stopped(error: Error)

  class IndexerService {
    /** Set while an index run or a dump is in progress. */
    var running: bool
    const storage: IndexStorage
    const repo: Repo.DownloadRepository
    /** The JSON encoding of one download's counters, when it succeeds. */
    const encode: DownloadCounters -> Result<string>

    constructor(storage: IndexStorage, repo: Repo.DownloadRepository, encode: DownloadCounters -> Result<string>)
      ensures !running && this.storage == storage && this.repo == repo && this.encode == encode
    {
      running := false;
      this.storage := storage;
      this.repo := repo;
      this.encode := encode;
    }

    /** Index: scan, refuse an empty scan, Save, then answer Info of the
        new generation. `listing` is the work directory's listing. */
    method Index(listing: Result<seq<DirEntry>>) returns (r: Result<seq<ShareInfo>>, ghost scanned: seq<Download>)
      requires repo.Valid()
      modifies this, storage, repo, repo.store
      ensures running == old(running) && repo.Valid()
      ensures old(running) ==> r == Err(IndexingProcessHasAlreadyStarted) &&
                               unchanged(storage, repo, repo.store)
      ensures !old(running) && !old(storage.running) && listing.Err? ==>
                r == Err(Wrapped("cannot scan download store", listing.error)) && unchanged(repo, repo.store)
      ensures !old(running) && old(storage.running) ==>
                r == Err(Wrapped("cannot scan download store", IndexingProcessHasAlreadyStarted)) && unchanged(repo, repo.store)
      ensures !old(running) && r != Err(Wrapped("cannot scan download store", IndexingProcessHasAlreadyStarted)) && listing.Ok? ==>
                exists n :: 0 <= n <= |Candidates(storage.workDir, listing.value, storage.join)| &&
                  scanned == Converted(Candidates(storage.workDir, listing.value, storage.join)[..n], storage.convert)
      ensures r == Err(Message("cannot find dirs")) ==> scanned == [] && unchanged(repo, repo.store)
      ensures r.Err? && r.error.Wrapped? && r.error.context == "cannot save scan content" ==>
                r.error.cause.Wrapped? && r.error.cause.context in Repo.SaveSteps
      ensures r.Ok? ==> scanned != [] && repo.store.keys == Published(old(repo.store.keys), scanned) &&
                        RowSet(r.value) == set id | id in DownloadMap(scanned) ::
                          ShareInfo(id, DownloadMap(scanned)[id], |DownloadFilesMap(scanned, id)|)
    {
      if running {
        return Err(IndexingProcessHasAlreadyStarted), [];
      }
      running := true;
      var scan;
      ghost var taken, interrupted;
      scan, taken, interrupted := storage.Scan(listing);
      if scan.Err? {
        running := false;
        return Err(Wrapped("cannot scan download store", scan.error)), [];
      }
      var downloads := scan.value;
      scanned := downloads;
      if |downloads| < 1 {
        running := false;
        return Err(Message("cannot find dirs")), scanned;
      }
      r := SaveAndReport(downloads);
      running := false;
    }

    /** The end of Index once the scan found downloads: Save them, then
        answer Info of the generation Save published. */
    method SaveAndReport(downloads: seq<Download>) returns (r: Result<seq<ShareInfo>>)
      requires repo.Valid()
      modifies repo, repo.store
      ensures repo.Valid()
      ensures r.Err? ==> r.error.Wrapped? && r.error.context in {"cannot save scan content", "cannot get download info"}
      ensures r.Err? && r.error.context == "cannot save scan content" ==>
                r.error.cause.Wrapped? && r.error.cause.context in Repo.SaveSteps
      ensures r.Ok? ==> repo.store.keys == Published(old(repo.store.keys), downloads) &&
                        RowSet(r.value) == set id | id in DownloadMap(downloads) ::
                          ShareInfo(id, DownloadMap(downloads)[id], |DownloadFilesMap(downloads, id)|)
    {
      ghost var before := repo.store.keys;
      var saved := repo.Save(downloads);
      if saved.Err? {
        return Err(Wrapped("cannot save scan content", saved.error));
      }
      InfoAfterSave(before, downloads);
      var infos, lost := repo.Info();
      if infos.Err? {
        return Err(Wrapped("cannot get download info", infos.error));
      }
      return Ok(infos.value);
    }

    /** DumpCounters: `file` is the outcome of creating the dump file, and
        `written` is everything written to it. On success the file holds the
        complete array of the counters of every download of the active
        generation; any failure stops the dump before "]". */
    method DumpCounters(file: Result<()>) returns (r: Result<()>, written: string, ghost items: seq<DownloadCounters>)
      modifies this
      ensures running == old(running)
      ensures old(running) ==> r == Err(IndexingProcessHasAlreadyStarted) && written == ""
      ensures !old(running) && file.Err? ==> r == Err(Wrapped("cannot create dump file", file.error)) && written == ""
      ensures HGetAll(repo.store.keys, GenKey(KeyDownloadMap, repo.ver)).Err? && !old(running) && file.Ok? ==>
                r == Err(Wrapped("cannot get iterator", Wrapped("cannot getfolder list", WrongType))) ||
                r == Err(Wrapped("cannot get iterator", Wrapped("cannot getfolder list", StoreFailure)))
      ensures AllCounted(repo.store.keys, repo.ver, items)
      ensures DistinctIds(items)
      ensures r.Ok? ==> (forall i :: 0 <= i < |items| ==> encode(items[i]).Ok?) &&
                        written == Dump(Encodings(items, encode)) &&
                        ItemIds(items) == Fields(repo.store.keys, GenKey(KeyDownloadMap, repo.ver)).Keys
      ensures r.Ok? ==> forall id, f ::
                (id in Fields(repo.store.keys, GenKey(KeyDownloadMap, repo.ver)) &&
                 f in Fields(repo.store.keys, DownloadFilesKey(repo.ver, id))) ==> HGet(repo.store.keys, KeyFileStats, f).Val?
      ensures r.Ok? <==> |written| > 0 && written[|written| - 1] == ']'
      ensures r.Err? ==>
                r == Err(IndexingProcessHasAlreadyStarted) ||
                (r.error.Wrapped? && r.error.context in
                   {"cannot create dump file", "cannot get iterator", "cannot get counters", "cannot encode struct"})
    {
      if running {
        return Err(IndexingProcessHasAlreadyStarted), "", [];
      }
      running := true;
      if file.Err? {
        running := false;
        return Err(Wrapped("cannot create dump file", file.error)), "", [];
      }
      var it := repo.DownloadCounterIterator();
      if it.Err? {
        running := false;
        return Err(Wrapped("cannot get iterator", it.error)), "", [];
      }
      r, written, items := WriteArray(it.value);
      if r.Ok? {
        DumpedFilesCounted(repo.store.keys, repo.ver, items, it.value.folders.Keys);
      }
      running := false;
    }

    /** The dump loop: "[\n", one encoded item per download the iterator
        yields, and "]" once it is exhausted. */
    method WriteArray(iter: Repo.CounterIterator) returns (r: Result<()>, written: string, ghost items: seq<DownloadCounters>)
      requires iter.Valid() && iter.pending == iter.folders.Keys
      modifies iter
      ensures AllCounted(iter.store.keys, iter.ver, items) && FilesCounted(iter.store.keys, items)
      ensures DistinctIds(items)
      ensures r.Ok? ==> (forall i :: 0 <= i < |items| ==> encode(items[i]).Ok?) &&
                        written == Dump(Encodings(items, encode)) && ItemIds(items) == iter.folders.Keys
      ensures r.Ok? <==> |written| > 0 && written[|written| - 1] == ']'
      ensures r.Err? ==> r.error.Wrapped? && r.error.context in {"cannot get counters", "cannot encode struct"}
    {
      written := "[\n";
      items := [];
      ghost var encs: seq<string> := [];
      var first := true;
      ProgressStart(iter.folders.Keys);
      while true
        invariant iter.Valid()
        invariant written == "[\n" + Items(encs)
        invariant first <==> encs == []
        invariant Encoded(items, encs, encode)
        invariant Progress(items, iter.pending, iter.folders.Keys)
        invariant AllCounted(iter.store.keys, iter.ver, items) && FilesCounted(iter.store.keys, items)
        decreases |iter.pending|
      {
        var step;
        step, written, items, encs := DumpNext(iter, written, first, items, encs);
        if step.Exhausted? {
          break;
        }
        if step.Stopped? {
          return Err(step.error), written, items;
        }
        first := false;
      }
      written := written + "]";
      ProgressDone(items, iter.folders.Keys);
      EncodedAll(items, encs, encode);
      return Ok(()), written, items;
    }

    /** One turn of the dump loop: pull the next download's counters, then
        write its item; the dump so far keeps its shape, and a failure
        leaves it without its closing "]". */
    method DumpNext(iter: Repo.CounterIterator, written: string, first: bool,
                    ghost items: seq<DownloadCounters>, ghost encs: seq<string>)
      returns (step: DumpStep, out: string, ghost items': seq<DownloadCounters>, ghost encs': seq<string>)
      requires iter.Valid() && written == "[\n" + Items(encs) && (first <==> encs == [])
      requires Encoded(items, encs, encode) && Progress(items, iter.pending, iter.folders.Keys)
      requires AllCounted(iter.store.keys, iter.ver, items) && FilesCounted(iter.store.keys, items)
      modifies iter
      ensures iter.Valid()
      ensures !step.Pulled? ==> items' == items && encs' == encs
      ensures step.Exhausted? ==> out == written && old(iter.pending) == {} && iter.pending == {}
      ensures step.Pulled? ==> |iter.pending| < old(|iter.pending|) && out == "[\n" + Items(encs') && encs' != [] &&
                               Encoded(items', encs', encode) && Progress(items', iter.pending, iter.folders.Keys) &&
                               AllCounted(iter.store.keys, iter.ver, items') && FilesCounted(iter.store.keys, items')
      ensures step.Stopped? ==> (|out| > 0 && out[|out| - 1] != ']' &&
                                 step.error.Wrapped? && step.error.context in {"cannot get counters", "cannot encode struct"})
    {
      ghost var before := iter.pending;
      items', encs' := items, encs;
      var item := Pull(iter, items);
      if item.None? {
        return Exhausted, written, items, encs;
      }
      if item.value.Err? {
        ItemsEnd(encs);
        return Stopped(Wrapped("cannot get counters", item.value.error)), written, items, encs;
      }
      var dc := item.value.value;
      var failed;
      failed, out, items', encs' := Emit(written, first, dc, items, encs, before, iter.folders.Keys);
      if failed.Some? {
        return Stopped(Wrapped("cannot encode struct", failed.value)), out, items, encs;
      }
      return Pulled, out, items', encs';
    }

    /** One item of the dump: the comma before every item but the first,
        then the encoding and its newline; nothing more once encoding fails.
        A written item moves its download from pending to dumped. */
    method Emit(written: string, first: bool, dc: DownloadCounters, ghost items: seq<DownloadCounters>, ghost encs: seq<string>,
                ghost pending: set<string>, ghost folders: set<string>)
      returns (failed: Option<Error>, out: string, ghost items': seq<DownloadCounters>, ghost encs': seq<string>)
      requires written == "[\n" + Items(encs) && (first <==> encs == [])
      requires Encoded(items, encs, encode) && Progress(items, pending, folders) && dc.id in pending
      ensures failed.None? <==> encode(dc).Ok?
      ensures failed.None? ==> items' == items + [dc] && out == "[\n" + Items(encs') && encs' != [] &&
                               Encoded(items', encs', encode) && Progress(items', pending - {dc.id}, folders)
      ensures failed.Some? ==> failed.value == encode(dc).error && |out| > 0 && out[|out| - 1] != ']'
    {
      items', encs' := items, encs;
      out := written;
      if !first {
        out := out + ",";
      }
      var enc := encode(dc);
      if enc.Err? {
        ItemsEnd(encs);
        return Some(enc.error), out, items, encs;
      }
      assert (encs + [enc.value])[..|encs|] == encs;
      out := out + enc.value + "\n";
      ProgressStep(items, pending, folders, dc);
      EncodedAppend(items, encs, encode, dc);
      return None, out, items + [dc], encs + [enc.value];
    }
  }
}
