/** The blue/green download repository (internal/repository/download/download.go).

    Two generations of the published data, v1 and v2, live side by side in
    the store; the string key `av` names the active one and the repository
    caches it in `ver`. Save rebuilds the standby generation and then flips
    the version key, so readers never see a half-written generation. */
module Download {
  import opened Common
  import opened Redis
  import opened Keys
  import opened Entity
  import opened Stages
  import opened Reads
  import Decimal

  /** The contexts Save wraps a failure with, one per step. */
  const SaveSteps: set<string> := {"cannot get active version", "cannot clear old data", "cannot save new data",
                                   "cannot switch to new version", "cannot delete deleted keys"}

  class DownloadRepository {
    const store: Store
    var ver: string

    /** The cached version is one of the two generation tags. */
    ghost predicate Valid()
      reads this
    {
      IsVersion(ver)
    }

    /** The cached version is the one the store's version key names. */
    ghost predicate Coherent()
      reads this, store
    {
      Get(store.keys, KeyActiveVersion) == Val(ver)
    }

    constructor(store: Store, ver: string)
      requires IsVersion(ver)
      ensures this.store == store && this.ver == ver && Valid()
    {
      this.store := store;
      this.ver := ver;
    }

    /** getVersions: reads `av`; v1 and v2 are kept, anything else (or no
        key) is reset to v1 by a SET; a failed read other than "no key" is
        an error. */
    static method GetVersions(st: Store) returns (r: Result<(string, string)>, ghost lost: bool)
      modifies st
      ensures r.Ok? ==> !Get(old(st.keys), KeyActiveVersion).Failed? &&
                        r.value == Versions(StoredVersion(old(st.keys))) && st.keys == Reset(old(st.keys))
      ensures r.Err? ==> st.keys == old(st.keys) || st.keys == Reset(old(st.keys))
      ensures !lost ==> (r.Ok? <==> !Get(old(st.keys), KeyActiveVersion).Failed?)
      ensures !lost && Get(old(st.keys), KeyActiveVersion).Failed? ==>
                r == Err(Wrapped("cannot get active version", Get(old(st.keys), KeyActiveVersion).e))
      ensures lost ==> r == Err(Wrapped("cannot get active version", StoreFailure)) ||
                       (!IsVersion(StoredVersion(old(st.keys))) && r == Err(Wrapped("cannot set varsion key", StoreFailure)))
    {
      var ok := st.Read();
      if !ok {
        return Err(Wrapped("cannot get active version", StoreFailure)), true;
      }
      var reply := Get(st.keys, KeyActiveVersion);
      if reply.Failed? {
        return Err(Wrapped("cannot get active version", reply.e)), false;
      }
      var stored := if reply.Val? then reply.s else KeyEmpty;
      if stored == KeyVersion1 {
        return Ok((KeyVersion1, KeyVersion2)), false;
      } else if stored == KeyVersion2 {
        return Ok((KeyVersion2, KeyVersion1)), false;
      }
      ok := st.Write(st.keys[KeyActiveVersion := Str(KeyVersion1)]);
      if !ok {
        return Err(Wrapped("cannot set varsion key", StoreFailure)), true;
      }
      return Ok((KeyVersion1, KeyVersion2)), false;
    }

    /** clearOldData: for each clearable namespace, SCAN the keys under
        `ns:ver:` and DEL each batch, then DEL `ns:ver` itself. Only keys of
        the generation are ever removed; on success all of them are. */
    method ClearOldData(v: string) returns (r: Result<()>)
      requires IsVersion(v)
      modifies store
      ensures SubMap(store.keys, old(store.keys))
      ensures forall k :: !InGeneration(k, v) ==> Agree(store.keys, old(store.keys), k)
      ensures r.Ok? ==> store.keys == ClearGeneration(old(store.keys), v)
      ensures r.Err? ==> r == Err(Wrapped("error scanning keys", StoreFailure)) ||
                         r == Err(Wrapped("error deleting keys", StoreFailure))
    {
      for i := 0 to |ClearableKeys|
        invariant SubMap(store.keys, old(store.keys))
        invariant forall k :: !InGeneration(k, v) ==> Agree(store.keys, old(store.keys), k)
        invariant forall k, j :: 0 <= j < i && k in store.keys ==> !ClearedBy(k, ClearableKeys[j], v)
      {
        ghost var before := store.keys;
        r := ClearNamespace(i, v);
        assert forall k :: ClearedBy(k, ClearableKeys[i], v) ==> InGeneration(k, v);
        if r.Err? {
          return;
        }
      }
      forall k | k in store.keys ensures !InGeneration(k, v) {
        NotClearedOutside(k, v);
      }
      AgreeEverywhere(store.keys, ClearGeneration(old(store.keys), v));
      return Ok(());
    }

    /** One pass of clearOldData's outer loop: the namespace at position
        `i` of ClearableKeys. */
    method ClearNamespace(i: nat, v: string) returns (r: Result<()>)
      requires i < |ClearableKeys| && IsVersion(v)
      modifies store
      ensures SubMap(store.keys, old(store.keys))
      ensures forall k :: !ClearedBy(k, ClearableKeys[i], v) ==> Agree(store.keys, old(store.keys), k)
      ensures r.Ok? ==> forall k :: k in store.keys ==> !ClearedBy(k, ClearableKeys[i], v)
      ensures r.Err? ==> r == Err(Wrapped("error scanning keys", StoreFailure)) ||
                         r == Err(Wrapped("error deleting keys", StoreFailure))
    {
      var ns := ClearableKeys[i];
      var pattern := GenPattern(ns, v);
      var prefix := PatternPrefix(pattern);
      r := DeleteMatching(prefix, MatchingKeys(store.keys, pattern));
      if r.Err? {
        return;
      }
      var ok := store.Write(store.keys - {GenKey(ns, v)});
      if !ok {
        return Err(Wrapped("error deleting keys", StoreFailure));
      }
      return Ok(());
    }

    /** The SCAN loop of clearOldData: each turn reads one batch of the
        matching keys and deletes it, until the cursor comes back to 0.
        `pending` is every key the full SCAN returns. */
    method DeleteMatching(prefix: string, pending: set<string>) returns (r: Result<()>)
      requires forall k :: k in pending ==> HasPrefix(k, prefix)
      requires forall k :: k in store.keys && HasPrefix(k, prefix) ==> k in pending
      modifies store
      ensures SubMap(store.keys, old(store.keys))
      ensures forall k :: !HasPrefix(k, prefix) ==> Agree(store.keys, old(store.keys), k)
      ensures r.Ok? ==> forall k :: k in store.keys ==> !HasPrefix(k, prefix)
      ensures r.Err? ==> r == Err(Wrapped("error scanning keys", StoreFailure)) ||
                         r == Err(Wrapped("error deleting keys", StoreFailure))
    {
      var rest := pending;
      while true
        invariant forall k :: k in rest ==> HasPrefix(k, prefix)
        invariant forall k :: k in store.keys && HasPrefix(k, prefix) ==> k in rest
        invariant SubMap(store.keys, old(store.keys))
        invariant forall k :: !HasPrefix(k, prefix) ==> Agree(store.keys, old(store.keys), k)
        decreases |rest|
      {
        var ok := store.Read();
        if !ok {
          return Err(Wrapped("error scanning keys", StoreFailure));
        }
        var batch := NextBatch(rest);
        rest := rest - batch;
        if |batch| > 0 {
          ok := store.Write(store.keys - batch);
          if !ok {
            return Err(Wrapped("error deleting keys", StoreFailure));
          }
        }
        if rest == {} {
          break;
        }
      }
      return Ok(());
    }

    /** saveNewData: queues, per download, HSETs of `dm:ver` and `pc:ver`
        and, per file, of `fm:ver` and `dfm:ver:id`, then executes the
        pipeline. `applied` commands took effect. */
    method SaveNewData(v: string, ds: seq<Download>) returns (r: Result<()>, ghost applied: nat, ghost lost: bool)
      modifies store
      ensures applied <= |SaveCommands(v, ds)| && store.keys == Run(old(store.keys), SaveCommands(v, ds)[..applied])
      ensures r.Ok? ==> store.keys == Run(old(store.keys), SaveCommands(v, ds))
      ensures !lost ==> (r.Ok? <==> FirstError(old(store.keys), SaveCommands(v, ds)) == None)
      ensures r.Err? ==> r.error.Wrapped? && r.error.context == "cannot save new data"
      ensures lost ==> r == Err(Wrapped("cannot save new data", StoreFailure))
    {
      var cmds: seq<Command> := [];
      for i := 0 to |ds|
        invariant cmds == SaveCommands(v, ds[..i])
      {
        var d := ds[i];
        cmds := cmds + [HSet(GenKey(KeyDownloadMap, v), d.id, d.sourcePath), HSet(GenKey(KeyPageContent, v), d.id, d.pageContent)];
        var keyFileMap := GenKey(KeyFilesMap, v);
        var keyDownloadMap := DownloadFilesKey(v, d.id);
        for j := 0 to |d.files|
          invariant cmds == SaveCommands(v, ds[..i]) +
            [HSet(GenKey(KeyDownloadMap, v), d.id, d.sourcePath), HSet(GenKey(KeyPageContent, v), d.id, d.pageContent)] +
            FileCommands(v, d.id, d.files[..j])
        {
          var f := d.files[j];
          cmds := cmds + [HSet(keyFileMap, f.id, f.url), HSet(keyDownloadMap, f.id, f.url)];
          assert d.files[..j + 1][..j] == d.files[..j];
        }
        assert d.files[..|d.files|] == d.files;
        assert ds[..i + 1][..i] == ds[..i];
      }
      assert ds[..|ds|] == ds;
      var res;
      res, applied, lost := store.Exec(cmds);
      if res.Err? {
        return Err(Wrapped("cannot save new data", res.error)), applied, lost;
      }
      assert cmds[..applied] == cmds;
      return Ok(()), applied, lost;
    }

    /** Save: resolve the generations, clear the standby one, write the
        batch into it, flip the version key and the cached version, then run
        clearDeletedFileCounters, which deletes the stale `fs:` keys and
        leaves the counter hash alone. Each failure is wrapped with the name
        of the step; only the prune fails after the flip. */
    method Save(ds: seq<Download>) returns (r: Result<()>)
      requires Valid()
      modifies this, store
      ensures Valid()
      ensures r.Ok? ==> ver == Versions(StoredVersion(old(store.keys))).1 &&
                        store.keys == Published(old(store.keys), ds) && Coherent()
      ensures r.Ok? && old(Coherent()) ==> ver == Other(old(ver))
      ensures r.Err? ==> r.error.Wrapped? && r.error.context in SaveSteps
      ensures r.Err? && r.error.context != "cannot delete deleted keys" ==> ver == old(ver)
      ensures r.Err? && r.error.context in {"cannot get active version", "cannot clear old data", "cannot save new data"} ==>
                Agree(store.keys, old(store.keys), KeyActiveVersion) || Agree(store.keys, Reset(old(store.keys)), KeyActiveVersion)
      ensures r.Err? && r.error.context == "cannot delete deleted keys" ==>
                ver == Versions(StoredVersion(old(store.keys))).1 &&
                forall k :: Agree(store.keys, Published(old(store.keys), ds), k) ||
                            (k in StaleStatKeys(old(store.keys), FileIds(ds)) && k in store.keys)
      ensures SaveFootprint(store.keys, old(store.keys), Versions(StoredVersion(old(store.keys))).1, FileIds(ds))
      ensures forall k :: InGeneration(k, Versions(StoredVersion(old(store.keys))).0) ==> Agree(store.keys, old(store.keys), k)
      ensures Agree(store.keys, old(store.keys), KeyFileStats)
    {
      ghost var start := store.keys;
      var staging, standbyTag := StageStandby(ds);
      ghost var staged := store.keys;
      if staging.Err? {
        SaveOutcome(start, staged, staged, staged, standbyTag, FileIds(ds));
        SaveFootprintKeeps(store.keys, start, standbyTag, FileIds(ds));
        return Err(staging.error);
      }
      var standby := staging.value;
      ghost var flipped;
      r, flipped := Publish(ds, standby, staged);
      SaveOutcome(start, staged, flipped, store.keys, standby, FileIds(ds));
      SaveFootprintKeeps(store.keys, start, standby, FileIds(ds));
      if r.Ok? || r.error.context == "cannot delete deleted keys" {
        assert flipped == Flipped(start, ds);
        StaleStatKeysFlipped(start, ds);
        PrunedElsewhere(flipped, store.keys, FileIds(ds));
      }
    }

    /** The last two steps of Save once the standby generation is staged:
        switchVersion flips the version key to it, then
        clearDeletedFileCounters deletes the stale `fs:` keys. `staged` is
        the keyspace it starts from and `flipped` the one between the two
        steps. */
    method Publish(ds: seq<Download>, standby: string, ghost staged: Keyspace) returns (r: Result<()>, ghost flipped: Keyspace)
      requires Valid() && IsVersion(standby) && store.keys == staged
      modifies this, store
      ensures Valid()
      ensures forall k :: k != KeyActiveVersion ==> Agree(flipped, staged, k)
      ensures SubMap(store.keys, flipped)
      ensures forall k :: k !in StaleStatKeys(flipped, FileIds(ds)) ==> Agree(store.keys, flipped, k)
      ensures r.Ok? ==> ver == standby && Coherent() && flipped == staged[KeyActiveVersion := Str(standby)] &&
                        store.keys == flipped - StaleStatKeys(flipped, FileIds(ds))
      ensures r.Err? ==> r.error.Wrapped? && r.error.context in {"cannot switch to new version", "cannot delete deleted keys"}
      ensures r.Err? && r.error.context == "cannot switch to new version" ==>
                ver == old(ver) && (store.keys == staged || store.keys == staged[KeyActiveVersion := Str(standby)])
      ensures r.Err? && r.error.context == "cannot delete deleted keys" ==>
                ver == standby && flipped == staged[KeyActiveVersion := Str(standby)]
    {
      var ok := store.Write(store.keys[KeyActiveVersion := Str(standby)]);
      flipped := store.keys;
      if !ok {
        return Err(Wrapped("cannot switch to new version", StoreFailure)), flipped;
      }
      ver := standby;
      var cleared := ClearDeletedFileCounters(ds);
      if cleared.Err? {
        return Err(Wrapped("cannot delete deleted keys", cleared.error)), flipped;
      }
      return Ok(()), flipped;
    }

    /** Save with the intended prune: the same first four steps, then the
        counters of files that left the batch are removed from the hash
        `fs` (PruneFileCounters) instead of deleting `fs:` keys. */
    method SaveCorrected(ds: seq<Download>) returns (r: Result<()>)
      requires Valid()
      modifies this, store
      ensures Valid()
      ensures r.Ok? ==> ver == Versions(StoredVersion(old(store.keys))).1 &&
                        store.keys == PublishedCorrected(old(store.keys), ds) && Coherent()
      ensures r.Ok? && old(Coherent()) ==> ver == Other(old(ver))
      ensures r.Err? ==> r.error.Wrapped? && r.error.context in SaveSteps
      ensures r.Err? && r.error.context != "cannot delete deleted keys" ==> ver == old(ver)
      ensures r.Err? && r.error.context in {"cannot get active version", "cannot clear old data", "cannot save new data"} ==>
                Agree(store.keys, old(store.keys), KeyActiveVersion) || Agree(store.keys, Reset(old(store.keys)), KeyActiveVersion)
      ensures r.Err? && r.error.context == "cannot delete deleted keys" ==>
                ver == Versions(StoredVersion(old(store.keys))).1 &&
                forall k :: k != KeyFileStats ==> Agree(store.keys, PublishedCorrected(old(store.keys), ds), k)
      ensures StandbyOnly(store.keys, old(store.keys), Versions(StoredVersion(old(store.keys))).1)
      ensures forall k :: InGeneration(k, Versions(StoredVersion(old(store.keys))).0) ==> Agree(store.keys, old(store.keys), k)
      ensures CountersKept(store.keys, old(store.keys), FileIds(ds))
    {
      ghost var start := store.keys;
      var staging, standbyTag := StageStandby(ds);
      ghost var staged := store.keys;
      if staging.Err? {
        SaveOutcomeCorrected(start, staged, staged, staged, standbyTag, FileIds(ds));
        StandbyOnlyKeepsActive(store.keys, start, standbyTag);
        return Err(staging.error);
      }
      var standby := staging.value;
      ghost var flipped;
      r, flipped := PublishCorrected(ds, standby, staged);
      SaveOutcomeCorrected(start, staged, flipped, store.keys, standby, FileIds(ds));
      StandbyOnlyKeepsActive(store.keys, start, standby);
    }

    /** The last two steps of SaveCorrected: the flip, then the HDEL prune
        of the counter hash. */
    method PublishCorrected(ds: seq<Download>, standby: string, ghost staged: Keyspace) returns (r: Result<()>, ghost flipped: Keyspace)
      requires Valid() && IsVersion(standby) && store.keys == staged
      modifies this, store
      ensures Valid()
      ensures forall k :: k != KeyActiveVersion ==> Agree(flipped, staged, k)
      ensures forall k :: k != KeyFileStats ==> Agree(store.keys, flipped, k)
      ensures CountersKept(store.keys, flipped, FileIds(ds))
      ensures r.Ok? ==> ver == standby && Coherent() &&
                        store.keys == PruneCounters(staged[KeyActiveVersion := Str(standby)], FileIds(ds))
      ensures r.Err? ==> r.error.Wrapped? && r.error.context in {"cannot switch to new version", "cannot delete deleted keys"}
      ensures r.Err? && r.error.context == "cannot switch to new version" ==>
                ver == old(ver) && (store.keys == staged || store.keys == staged[KeyActiveVersion := Str(standby)])
      ensures r.Err? && r.error.context == "cannot delete deleted keys" ==>
                ver == standby && flipped == staged[KeyActiveVersion := Str(standby)] &&
                forall k :: k != KeyFileStats ==> Agree(store.keys, PruneCounters(flipped, FileIds(ds)), k)
    {
      var ok := store.Write(store.keys[KeyActiveVersion := Str(standby)]);
      flipped := store.keys;
      if !ok {
        return Err(Wrapped("cannot switch to new version", StoreFailure)), flipped;
      }
      ver := standby;
      var pruned := PruneFileCounters(ds);
      if pruned.Err? {
        PrunedElsewhereCorrected(flipped, store.keys, FileIds(ds));
        return Err(Wrapped("cannot delete deleted keys", pruned.error)), flipped;
      }
      return Ok(()), flipped;
    }

    /** The first three steps of Save: getVersions, clearOldData and
        saveNewData. They change nothing outside the standby generation but
        the version key, which getVersions may reset to v1. */
    method StageStandby(ds: seq<Download>) returns (r: Result<string>, ghost standby: string)
      modifies store
      ensures standby == Versions(StoredVersion(old(store.keys))).1
      ensures r.Ok? ==> r.value == standby && store.keys == Staged(Reset(old(store.keys)), standby, ds)
      ensures r.Err? ==> r.error.Wrapped? &&
                         r.error.context in {"cannot get active version", "cannot clear old data", "cannot save new data"}
      ensures Agree(store.keys, old(store.keys), KeyActiveVersion) || Agree(store.keys, Reset(old(store.keys)), KeyActiveVersion)
      ensures forall k :: k != KeyActiveVersion && !InGeneration(k, standby) ==> Agree(store.keys, old(store.keys), k)
    {
      var versions, lost := GetVersions(store);
      standby := Versions(StoredVersion(old(store.keys))).1;
      if versions.Err? {
        return Err(Wrapped("cannot get active version", versions.error)), standby;
      }
      var tag := versions.value.1;
      ghost var reset := store.keys;
      OutsideGenerations(KeyActiveVersion, tag);
      var cleared := ClearOldData(tag);
      if cleared.Err? {
        return Err(Wrapped("cannot clear old data", cleared.error)), standby;
      }
      var saved, applied, lostSave := SaveNewData(tag, ds);
      forall k | !InGeneration(k, standby) ensures Agree(store.keys, reset, k) {
        PartialSave(reset, standby, ds, applied, k);
      }
      if saved.Err? {
        return Err(Wrapped("cannot save new data", saved.error)), standby;
      }
      return Ok(tag), standby;
    }

    /** clearDeletedFileCounters as written: SCAN the keys matching `fs:*`,
        queue a DEL of every one whose full name is not a file id of the
        batch, and execute the queue when it is not empty. The counters are
        fields of the hash `fs`, which the pattern does not match, so no
        counter is ever removed. */
    method ClearDeletedFileCounters(ds: seq<Download>) returns (r: Result<()>)
      modifies store
      ensures SubMap(store.keys, old(store.keys))
      ensures forall k :: k !in StaleStatKeys(old(store.keys), FileIds(ds)) ==> Agree(store.keys, old(store.keys), k)
      ensures Agree(store.keys, old(store.keys), KeyFileStats)
      ensures r.Ok? ==> store.keys == old(store.keys) - StaleStatKeys(old(store.keys), FileIds(ds))
      ensures r.Err? ==> r == Err(Wrapped("error scanning keys", StoreFailure)) ||
                         r == Err(Wrapped("cannot delete keys", StoreFailure))
    {
      var ids := CollectFileIds(ds);
      var scan := ScanStaleStatKeys(ids);
      if scan.Err? {
        return Err(scan.error);
      }
      var cmds := scan.value;
      if |cmds| > 0 {
        RunDelsNoError(store.keys, cmds);
        var res, applied, lost := store.Exec(cmds);
        RunPrefixKeys(cmds, applied);
        assert forall i :: 0 <= i < applied ==> cmds[..applied][i] == cmds[i];
        RunDels(old(store.keys), cmds[..applied]);
        if res.Err? {
          return Err(Wrapped("cannot delete keys", res.error));
        }
        assert cmds[..applied] == cmds;
      }
      return Ok(());
    }

    /** The scanning half of clearDeletedFileCounters: the DELs it queues. */
    method ScanStaleStatKeys(ids: set<string>) returns (r: Result<seq<Command>>)
      ensures r.Ok? ==> (forall i :: 0 <= i < |r.value| ==> r.value[i].Del?) &&
                        KeysOf(r.value) == StaleStatKeys(store.keys, ids) &&
                        (r.value == [] <==> StaleStatKeys(store.keys, ids) == {})
      ensures r.Err? ==> r == Err(Wrapped("error scanning keys", StoreFailure))
    {
      var pending := MatchingKeys(store.keys, FileStatsPattern());
      ghost var seen: set<string> := {};
      var cmds: seq<Command> := [];
      while true
        invariant seen + pending == MatchingKeys(store.keys, FileStatsPattern()) && seen * pending == {}
        invariant forall i :: 0 <= i < |cmds| ==> cmds[i].Del?
        invariant KeysOf(cmds) == seen - ids
        decreases |pending|
      {
        var ok := store.Read();
        if !ok {
          return Err(Wrapped("error scanning keys", StoreFailure));
        }
        var batch := NextBatch(pending);
        cmds := QueueDels(cmds, batch, ids);
        ScanStep(MatchingKeys(store.keys, FileStatsPattern()), seen, pending, batch, ids);
        pending := pending - batch;
        seen := seen + batch;
        if pending == {} {
          break;
        }
      }
      StaleStatKeysMatching(store.keys, ids);
      KeysOfEmpty(cmds);
      return Ok(cmds);
    }

    /** The prune as intended: scan the fields of the hash `fs` (HSCAN),
        queue an HDEL of every counter whose file is not in the batch, and
        execute the queue when it is not empty. */
    method PruneFileCounters(ds: seq<Download>) returns (r: Result<()>)
      modifies store
      ensures forall k :: k != KeyFileStats ==> Agree(store.keys, old(store.keys), k)
      ensures forall id :: id in FileIds(ds) ==> HGet(store.keys, KeyFileStats, id) == HGet(old(store.keys), KeyFileStats, id)
      ensures r.Ok? ==> store.keys == PruneCounters(old(store.keys), FileIds(ds))
      ensures r.Err? ==> r == Err(Wrapped("error scanning counters", StoreFailure)) ||
                         r == Err(Wrapped("error scanning counters", WrongType)) ||
                         r == Err(Wrapped("cannot delete counters", StoreFailure))
      ensures !HashLike(old(store.keys), KeyFileStats) ==> r.Err?
    {
      var ids := CollectFileIds(ds);
      var scan := ScanStaleCounters(ids);
      if scan.Err? {
        return Err(scan.error);
      }
      var cmds := scan.value;
      if |cmds| > 0 {
        RunHDelsNoError(store.keys, cmds, KeyFileStats);
        var res, applied, lost := store.Exec(cmds);
        PartialPrune(old(store.keys), cmds, applied, ids);
        if res.Err? {
          return Err(Wrapped("cannot delete counters", res.error));
        }
        assert cmds[..applied] == cmds;
        RunHDels(old(store.keys), cmds, KeyFileStats);
      }
      return Ok(());
    }

    /** The scanning half of the intended prune: the HDELs it queues. */
    method ScanStaleCounters(ids: set<string>) returns (r: Result<seq<Command>>)
      ensures r.Ok? ==> HashLike(store.keys, KeyFileStats) &&
                        (forall i :: 0 <= i < |r.value| ==> r.value[i].HDel? && r.value[i].key == KeyFileStats) &&
                        FieldsOf(r.value) == StaleCounters(store.keys, ids) &&
                        (r.value == [] <==> StaleCounters(store.keys, ids) == {})
      ensures r.Err? ==> r == Err(Wrapped("error scanning counters", StoreFailure)) ||
                         (!HashLike(store.keys, KeyFileStats) && r == Err(Wrapped("error scanning counters", WrongType)))
      ensures !HashLike(store.keys, KeyFileStats) ==> r.Err?
    {
      var pending := Fields(store.keys, KeyFileStats).Keys;
      ghost var seen: set<string> := {};
      var cmds: seq<Command> := [];
      while true
        invariant seen + pending == Fields(store.keys, KeyFileStats).Keys && seen * pending == {}
        invariant forall i :: 0 <= i < |cmds| ==> cmds[i].HDel? && cmds[i].key == KeyFileStats
        invariant FieldsOf(cmds) == seen - ids
        decreases |pending|
      {
        var ok := store.Read();
        if !ok {
          return Err(Wrapped("error scanning counters", StoreFailure));
        }
        if !HashLike(store.keys, KeyFileStats) {
          return Err(Wrapped("error scanning counters", WrongType));
        }
        var batch := NextBatch(pending);
        cmds := QueueHDels(cmds, KeyFileStats, batch, ids);
        ScanStep(Fields(store.keys, KeyFileStats).Keys, seen, pending, batch, ids);
        pending := pending - batch;
        seen := seen + batch;
        if pending == {} {
          FieldsOfEmpty(cmds);
          return Ok(cmds);
        }
      }
    }

    // -------------------------------------------------------------------
    // Read paths: all resolve through the cached version `ver`

    /** Info: one row per download of the active generation, in the map's
        (unspecified) order. */
    method Info() returns (r: Result<seq<ShareInfo>>, ghost lost: bool)
      ensures !lost ==> (r.Ok? <==> InfoOutcome(store.keys, ver).Ok?)
      ensures !lost && r.Err? ==> r.error == InfoOutcome(store.keys, ver).error
      ensures r.Ok? ==> RowSet(r.value) == InfoRows(store.keys, ver) &&
                        |r.value| == |Fields(store.keys, GenKey(KeyDownloadMap, ver))|
      ensures r.Ok? ==> forall i, j :: 0 <= i < j < |r.value| ==> r.value[i].id != r.value[j].id
      ensures lost ==> r == Err(Wrapped("cannot get download map", StoreFailure)) ||
                       r == Err(Wrapped("cannot get download files", StoreFailure))
    {
      var ok := store.Read();
      if !ok {
        return Err(Wrapped("cannot get download map", StoreFailure)), true;
      }
      var downloadMap := HGetAll(store.keys, GenKey(KeyDownloadMap, ver));
      if downloadMap.Err? {
        return Err(Wrapped("cannot get download map", downloadMap.error)), false;
      }
      var m := downloadMap.value;
      if |m| < 1 {
        return Err(NoDownloadsFound), false;
      }
      var order := Enumerate(m.Keys);
      var infos: seq<ShareInfo> := [];
      for i := 0 to |order|
        invariant |infos| == i
        invariant forall j :: 0 <= j < i ==>
                    infos[j] == ShareInfo(order[j], m[order[j]], |Fields(store.keys, DownloadFilesKey(ver, order[j]))|)
        invariant forall j :: 0 <= j < i ==> HGetAll(store.keys, DownloadFilesKey(ver, order[j])).Ok?
      {
        var id := order[i];
        ok := store.Read();
        if !ok {
          return Err(Wrapped("cannot get download files", StoreFailure)), true;
        }
        var files := HGetAll(store.keys, DownloadFilesKey(ver, id));
        if files.Err? {
          return Err(Wrapped("cannot get download files", files.error)), false;
        }
        infos := infos + [ShareInfo(id, m[id], |files.value|)];
      }
      RowsInOrder(store.keys, ver, order, infos);
      forall id | id in m ensures HGetAll(store.keys, DownloadFilesKey(ver, id)).Ok? {
        var j :| 0 <= j < |order| && order[j] == id;
      }
      return Ok(infos), false;
    }

    /** GetFilePath: the url of file `id` in `fm:ver`; a missing field is
        FileNotFound, any other failure is wrapped with the file id. */
    method GetFilePath(id: string) returns (r: Result<string>, ghost lost: bool)
      ensures r.Ok? <==> !lost && HGet(store.keys, GenKey(KeyFilesMap, ver), id).Val?
      ensures r.Ok? ==> r.value == HGet(store.keys, GenKey(KeyFilesMap, ver), id).s
      ensures !lost && HGet(store.keys, GenKey(KeyFilesMap, ver), id).Nil? ==> r == Err(FileNotFound)
      ensures !lost && HGet(store.keys, GenKey(KeyFilesMap, ver), id).Failed? ==>
                r == Err(Wrapped("cannot get file " + id + " path", WrongType))
      ensures lost ==> r == Err(Wrapped("cannot get file " + id + " path", StoreFailure))
    {
      var ok := store.Read();
      if !ok {
        return Err(Wrapped("cannot get file " + id + " path", StoreFailure)), true;
      }
      match HGet(store.keys, GenKey(KeyFilesMap, ver), id)
      case Nil => return Err(FileNotFound), false;
      case Failed(e) => return Err(Wrapped("cannot get file " + id + " path", e)), false;
      case Val(path) => return Ok(path), false;
    }

    /** GetPage: the page of download `id` in `pc:ver`; a missing field is
        PageNotFound, any other failure is returned as it is. */
    method GetPage(id: string) returns (r: Result<string>, ghost lost: bool)
      ensures r.Ok? <==> !lost && HGet(store.keys, GenKey(KeyPageContent, ver), id).Val?
      ensures r.Ok? ==> r.value == HGet(store.keys, GenKey(KeyPageContent, ver), id).s
      ensures !lost && HGet(store.keys, GenKey(KeyPageContent, ver), id).Nil? ==> r == Err(PageNotFound)
      ensures !lost && HGet(store.keys, GenKey(KeyPageContent, ver), id).Failed? ==> r == Err(WrongType)
      ensures lost ==> r == Err(StoreFailure)
    {
      var ok := store.Read();
      if !ok {
        return Err(StoreFailure), true;
      }
      match HGet(store.keys, GenKey(KeyPageContent, ver), id)
      case Nil => return Err(PageNotFound), false;
      case Failed(e) => return Err(e), false;
      case Val(page) => return Ok(page), false;
    }

    /** IncFileCounter: HINCRBY fs id 1, returning the new counter. When the
        round trip fails the increment may still have been applied. */
    method IncFileCounter(id: string) returns (r: Result<int>, ghost lost: bool)
      modifies store
      ensures r.Ok? ==> !lost && HIncrBy(old(store.keys), KeyFileStats, id, 1).Ok? &&
                        (store.keys, r.value) == HIncrBy(old(store.keys), KeyFileStats, id, 1).value
      ensures r.Ok? ==> r.value == StoredCounter(old(store.keys), id).value + 1 &&
                        StoredCounter(store.keys, id) == Some(r.value)
      ensures !lost && HIncrBy(old(store.keys), KeyFileStats, id, 1).Err? ==>
                store.keys == old(store.keys) &&
                r == Err(Wrapped("cannot increment file " + id + " counter", HIncrBy(old(store.keys), KeyFileStats, id, 1).error))
      ensures !lost ==> (r.Ok? <==> HIncrBy(old(store.keys), KeyFileStats, id, 1).Ok?)
      ensures lost ==> r == Err(Wrapped("cannot increment file " + id + " counter", StoreFailure)) &&
                       (store.keys == old(store.keys) ||
                        (HIncrBy(old(store.keys), KeyFileStats, id, 1).Ok? && store.keys == HIncrBy(old(store.keys), KeyFileStats, id, 1).value.0))
    {
      IncrementThenRead(store.keys, id);
      var reply := HIncrBy(store.keys, KeyFileStats, id, 1);
      var next := if reply.Ok? then reply.value.0 else store.keys;
      var ok := store.Write(next);
      if !ok {
        return Err(Wrapped("cannot increment file " + id + " counter", StoreFailure)), true;
      }
      if reply.Err? {
        return Err(Wrapped("cannot increment file " + id + " counter", reply.error)), false;
      }
      return Ok(reply.value.1), false;
    }

    /** UserExists: SETNX dl:id "1"; the user existed when the key was
        already there. The expiry of the key is not modelled. */
    method UserExists(id: string) returns (r: Result<bool>)
      modifies store
      ensures r.Ok? ==> (r.value <==> GetKey([KeyUniqueDownload, id]) in old(store.keys)) &&
                        store.keys == SetNX(old(store.keys), GetKey([KeyUniqueDownload, id]), "1").0
      ensures r.Ok? ==> GetKey([KeyUniqueDownload, id]) in store.keys
      ensures r.Err? ==> r == Err(Message("cannot check user exists")) &&
                         (store.keys == old(store.keys) || store.keys == SetNX(old(store.keys), GetKey([KeyUniqueDownload, id]), "1").0)
    {
      var key := GetKey([KeyUniqueDownload, id]);
      var reply := SetNX(store.keys, key, "1");
      var ok := store.Write(reply.0);
      if !ok {
        return Err(Message("cannot check user exists"));
      }
      return Ok(!reply.1);
    }

    /** GetDownloadCounters: the counter of every file of `dfm:ver:id`,
        read one HGET at a time. A missing counter is 0; a file whose read
        fails or whose value does not parse is left out (`skipped` are the
        files whose round trip failed). */
    method GetDownloadCounters(id: string) returns (r: Result<map<string, int>>, ghost skipped: set<string>)
      ensures r.Err? ==> r == Err(Wrapped("cannot get download files", StoreFailure)) ||
                         (HGetAll(store.keys, DownloadFilesKey(ver, id)).Err? && r == Err(Wrapped("cannot get download files", WrongType)))
      ensures HGetAll(store.keys, DownloadFilesKey(ver, id)).Err? ==> r.Err?
      ensures r.Ok? ==> skipped <= Fields(store.keys, DownloadFilesKey(ver, id)).Keys &&
                        r.value.Keys <= Fields(store.keys, DownloadFilesKey(ver, id)).Keys
      ensures r.Ok? ==> forall f :: f in Fields(store.keys, DownloadFilesKey(ver, id)) ==>
                          (f in r.value <==> f !in skipped && StoredCounter(store.keys, f).Some?)
      ensures r.Ok? ==> forall f :: f in r.value ==> r.value[f] == StoredCounter(store.keys, f).value
    {
      skipped := {};
      var ok := store.Read();
      if !ok {
        return Err(Wrapped("cannot get download files", StoreFailure)), skipped;
      }
      var files := HGetAll(store.keys, DownloadFilesKey(ver, id));
      if files.Err? {
        return Err(Wrapped("cannot get download files", files.error)), skipped;
      }
      var counters: map<string, int> := map[];
      var pending := files.value.Keys;
      while pending != {}
        invariant pending <= files.value.Keys
        invariant skipped <= files.value.Keys - pending && counters.Keys <= files.value.Keys - pending
        invariant forall f :: f in files.value.Keys - pending ==>
                    (f in counters <==> f !in skipped && StoredCounter(store.keys, f).Some?)
        invariant forall f :: f in counters ==> counters[f] == StoredCounter(store.keys, f).value
        decreases |pending|
      {
        var fileId :| fileId in pending;
        pending := pending - {fileId};
        ok := store.Read();
        if !ok {
          skipped := skipped + {fileId};
          continue;
        }
        match HGet(store.keys, KeyFileStats, fileId)
        case Failed(_) =>
        case Nil => counters := counters[fileId := 0];
        case Val(s) =>
          var c := Decimal.ParseInt(s);
          if c.Some? {
            counters := counters[fileId := c.value];
          }
      }
      return Ok(counters), skipped;
    }

    /** DownloadCounterIterator: reads the folder list of the active
        generation; the returned iterator yields one folder at a time. */
    method DownloadCounterIterator() returns (r: Result<CounterIterator>)
      ensures r.Ok? ==> fresh(r.value) && r.value.Valid() && r.value.store == store && r.value.ver == ver &&
                        r.value.folders == Fields(store.keys, GenKey(KeyDownloadMap, ver)) &&
                        r.value.pending == r.value.folders.Keys
      ensures r.Err? ==> r == Err(Wrapped("cannot getfolder list", StoreFailure)) ||
                         (HGetAll(store.keys, GenKey(KeyDownloadMap, ver)).Err? && r == Err(Wrapped("cannot getfolder list", WrongType)))
      ensures HGetAll(store.keys, GenKey(KeyDownloadMap, ver)).Err? ==> r.Err?
    {
      var ok := store.Read();
      if !ok {
        return Err(Wrapped("cannot getfolder list", StoreFailure));
      }
      var folders := HGetAll(store.keys, GenKey(KeyDownloadMap, ver));
      if folders.Err? {
        return Err(Wrapped("cannot getfolder list", folders.error));
      }
      var it := new CounterIterator(store, ver, folders.value);
      return Ok(it);
    }
  }

  /** The iterator DownloadCounterIterator returns: each step takes one
      folder of the snapshot `folders`, in the map's (unspecified) order,
      and yields its counters. After yielding an error the producer stops. */
  class CounterIterator {
    const store: Store
    const ver: string
    const folders: map<string, string>
    var pending: set<string>

    ghost predicate Valid()
      reads this
    {
      pending <= folders.Keys
    }

    constructor(store: Store, ver: string, folders: map<string, string>)
      ensures this.store == store && this.ver == ver && this.folders == folders
      ensures pending == folders.Keys && Valid()
    {
      this.store := store;
      this.ver := ver;
      this.folders := folders;
      pending := folders.Keys;
    }

    /** One step, with every file's counter read from its own reply: a
        missing counter, a failed reply or a value that does not parse
        counts 0, and only a failed round trip stops the dump. */
    method Next() returns (item: Option<Result<DownloadCounters>>, ghost lost: bool)
      requires Valid()
      modifies this
      ensures Valid() && pending <= old(pending)
      ensures item.None? <==> old(pending) == {}
      ensures item.None? ==> pending == {}
      ensures item.Some? && item.value.Ok? ==>
                item.value.value.id in old(pending) && pending == old(pending) - {item.value.value.id} &&
                item.value.value.sourcePath == folders[item.value.value.id] &&
                CountersOf(store.keys, ver, item.value.value)
      ensures item.Some? && item.value.Err? ==> pending == {}
      ensures item.Some? && item.value.Err? ==>
                item.value == Err(Wrapped("cannot get folder files", StoreFailure)) ||
                item.value == Err(Wrapped("cannot get folder files", WrongType)) ||
                item.value == Err(Wrapped("cannot exec pipe", StoreFailure))
      ensures item.Some? && !lost && (forall id :: id in old(pending) ==> HashLike(store.keys, DownloadFilesKey(ver, id))) ==>
                item.value.Ok?
    {
      if pending == {} {
        return None, false;
      }
      var id :| id in pending;
      var ok := store.Read();
      if !ok {
        pending := {};
        return Some(Err(Wrapped("cannot get folder files", StoreFailure))), true;
      }
      var filesMap := HGetAll(store.keys, DownloadFilesKey(ver, id));
      if filesMap.Err? {
        pending := {};
        return Some(Err(Wrapped("cannot get folder files", filesMap.error))), false;
      }
      pending := pending - {id};
      var dc := DownloadCounters(id, folders[id], []);
      if |filesMap.value| < 1 {
        assert CounterIds([]) == {} == filesMap.value.Keys;
        return Some(Ok(dc)), false;
      }
      var fileCounters := ListFiles(filesMap.value);
      ok := store.Read();
      if !ok {
        pending := {};
        return Some(Err(Wrapped("cannot exec pipe", StoreFailure))), true;
      }
      var counted := CountedFiles(store.keys, ver, dc, filesMap.value, fileCounters);
      return Some(Ok(counted)), false;
    }

    /** One step as written: pipe.Exec reports the first failed HGET,
        redis.Nil included, so a folder with a file that has no counter yet
        stops the whole dump with an error; the per-file fallback to 0 is
        only reached for values that do not parse. */
    method NextAsWritten() returns (item: Option<Result<DownloadCounters>>, ghost lost: bool)
      requires Valid()
      modifies this
      ensures Valid() && pending <= old(pending)
      ensures item.None? <==> old(pending) == {}
      ensures item.Some? && item.value.Ok? ==>
                item.value.value.id in old(pending) && pending == old(pending) - {item.value.value.id} &&
                CountersOf(store.keys, ver, item.value.value) &&
                forall i :: 0 <= i < |item.value.value.files| ==> HGet(store.keys, KeyFileStats, item.value.value.files[i].id).Val?
      ensures item.Some? && item.value.Err? ==> pending == {}
      ensures item.Some? && !lost && item.value.Ok? ==>
                forall f :: f in Fields(store.keys, DownloadFilesKey(ver, item.value.value.id)) ==> HGet(store.keys, KeyFileStats, f).Val?
      ensures item.Some? && item.value.Err? ==>
                item.value.error.Wrapped? && item.value.error.context in {"cannot get folder files", "cannot exec pipe"}
      ensures item.Some? && !lost && item.value.Err? && item.value.error.context == "cannot exec pipe" ==>
                item.value.error.cause == NilReply || item.value.error.cause == WrongType
    {
      if pending == {} {
        return None, false;
      }
      var id :| id in pending;
      var ok := store.Read();
      if !ok {
        pending := {};
        return Some(Err(Wrapped("cannot get folder files", StoreFailure))), true;
      }
      var filesMap := HGetAll(store.keys, DownloadFilesKey(ver, id));
      if filesMap.Err? {
        pending := {};
        return Some(Err(Wrapped("cannot get folder files", filesMap.error))), false;
      }
      pending := pending - {id};
      var dc := DownloadCounters(id, folders[id], []);
      if |filesMap.value| < 1 {
        assert CounterIds([]) == {} == filesMap.value.Keys;
        return Some(Ok(dc)), false;
      }
      var fileCounters := ListFiles(filesMap.value);
      var counted;
      counted, lost := ExecPipe(dc, filesMap.value, fileCounters);
      if counted.Err? {
        pending := {};
        return Some(Err(counted.error)), lost;
      }
      return Some(Ok(counted.value)), false;
    }

    /** pipe.Exec as written over one folder's listed files: one HGET of
        `fs` per file, and the first reply that is not a value fails the
        whole pipeline. */
    method ExecPipe(dc: DownloadCounters, files: map<string, string>, fcs: seq<FileCounter>)
      returns (r: Result<DownloadCounters>, ghost lost: bool)
      requires files == Fields(store.keys, DownloadFilesKey(ver, dc.id)) && ListsFiles(fcs, files)
      ensures r.Ok? ==> r.value == dc.(files := r.value.files) && CountersOf(store.keys, ver, r.value) &&
                        forall i :: 0 <= i < |r.value.files| ==> HGet(store.keys, KeyFileStats, r.value.files[i].id).Val?
      ensures r.Ok? ==> forall f :: f in files ==> HGet(store.keys, KeyFileStats, f).Val?
      ensures r.Err? ==> r.error.Wrapped? && r.error.context == "cannot exec pipe"
      ensures r.Err? && !lost ==> r.error.cause == NilReply || r.error.cause == WrongType
    {
      var ok := store.Read();
      if !ok {
        return Err(Wrapped("cannot exec pipe", StoreFailure)), true;
      }
      var failed := PipelineError(store.keys, fcs);
      PipelineErrorWhen(store.keys, fcs);
      PipelineErrorCause(store.keys, fcs);
      if failed.Some? {
        return Err(Wrapped("cannot exec pipe", failed.value)), false;
      }
      var counted := CountedFiles(store.keys, ver, dc, files, fcs);
      forall f | f in files ensures HGet(store.keys, KeyFileStats, f).Val? {
        assert f in CounterIds(fcs);
      }
      return Ok(counted), false;
    }
  }

  /** NewDownloadRepository: runs getVersions once and caches the active
      version it settles on; its failure is wrapped (the message has no colon). */
  method NewDownloadRepository(st: Store) returns (r: Result<DownloadRepository>, ghost lost: bool)
    modifies st
    ensures r.Ok? ==> fresh(r.value) && r.value.store == st && r.value.Valid() && r.value.Coherent() &&
                      r.value.ver == Versions(StoredVersion(old(st.keys))).0 && st.keys == Reset(old(st.keys))
    ensures r.Err? ==> st.keys == old(st.keys) || st.keys == Reset(old(st.keys))
    ensures !lost ==> (r.Ok? <==> !Get(old(st.keys), KeyActiveVersion).Failed?)
    ensures r.Err? ==> r.error.Wrapped? && r.error.context == "cannot get active sersionL" &&
                       r.error.cause.Wrapped? &&
                       r.error.cause.context in {"cannot get active version", "cannot set varsion key"}
  {
    var versions;
    versions, lost := DownloadRepository.GetVersions(st);
    if versions.Err? {
      return Err(Wrapped("cannot get active sersionL", versions.error)), lost;
    }
    var repo := new DownloadRepository(st, versions.value.0);
    return Ok(repo), lost;
  }

  /** The first loop of a folder step: one FileCounter per file of the
      folder, counter 0, in the map's order. */
  method ListFiles(files: map<string, string>) returns (fcs: seq<FileCounter>)
    ensures ListsFiles(fcs, files)
    ensures forall i :: 0 <= i < |fcs| ==> fcs[i].counter == 0
  {
    var order := Enumerate(files.Keys);
    fcs := [];
    for i := 0 to |order|
      invariant |fcs| == i
      invariant forall j :: 0 <= j < i ==> fcs[j] == FileCounter(order[j], "", files[order[j]], 0)
    {
      fcs := fcs + [FileCounter(order[i], "", files[order[i]], 0)];
    }
    assert CounterIds(fcs) == files.Keys by {
      forall x | x in files.Keys ensures x in CounterIds(fcs) {
        var j :| 0 <= j < |order| && order[j] == x;
        assert fcs[j].id == x;
      }
    }
  }

  /** The second loop: the counter of each file from its reply. */
  method FillCounters(ks: Keyspace, fcs: seq<FileCounter>) returns (out: seq<FileCounter>)
    ensures |out| == |fcs|
    ensures forall i :: 0 <= i < |out| ==> out[i] == fcs[i].(counter := DumpCounter(ks, fcs[i].id))
  {
    out := fcs;
    for i := 0 to |fcs|
      invariant |out| == |fcs|
      invariant forall j :: 0 <= j < i ==> out[j] == fcs[j].(counter := DumpCounter(ks, fcs[j].id))
      invariant forall j :: i <= j < |fcs| ==> out[j] == fcs[j]
    {
      var reply := HGet(ks, KeyFileStats, fcs[i].id);
      var counter := 0;
      if reply.Val? {
        var parsed := Decimal.ParseInt(reply.s);
        if parsed.Some? {
          counter := parsed.value;
        }
      }
      out := out[i := out[i].(counter := counter)];
    }
  }

  /** A folder's listed files with their counters filled in from `fs`. */
  method CountedFiles(ks: Keyspace, ver: string, dc: DownloadCounters, files: map<string, string>, fcs: seq<FileCounter>)
    returns (out: DownloadCounters)
    requires files == Fields(ks, DownloadFilesKey(ver, dc.id)) && ListsFiles(fcs, files)
    ensures out == dc.(files := out.files) && CountersOf(ks, ver, out)
    ensures |out.files| == |fcs| && forall i :: 0 <= i < |fcs| ==> out.files[i].id == fcs[i].id
  {
    var filled := FillCounters(ks, fcs);
    FilledListsFiles(fcs, filled, files);
    return dc.(files := filled);
  }

  /** One SCAN batch moves from pending to seen; what is queued for the
      seen keys grows by the batch's keys outside `ids`. */
  lemma ScanStep(all: set<string>, seen: set<string>, pending: set<string>, batch: set<string>, ids: set<string>)
    requires seen + pending == all && seen * pending == {} && batch <= pending
    ensures (seen + batch) + (pending - batch) == all && (seen + batch) * (pending - batch) == {}
    ensures (seen + batch) - ids == (seen - ids) + (batch - ids)
  {
  }

  /** The stale `fs:` keys are the keys the full SCAN of `fs:*` returns,
      less those of the batch. */
  lemma StaleStatKeysMatching(ks: Keyspace, ids: set<string>)
    ensures StaleStatKeys(ks, ids) == MatchingKeys(ks, FileStatsPattern()) - ids
  {
  }

  /** One key of a SCAN reply handled: queued when it is not kept. */
  lemma QueueDelStep(out: seq<Command>, base: set<string>, done: set<string>, ids: set<string>, key: string)
    requires KeysOf(out) == base + (done - ids)
    ensures key !in ids ==> KeysOf(out + [Del(key)]) == base + ((done + {key}) - ids)
    ensures key in ids ==> KeysOf(out) == base + ((done + {key}) - ids)
  {
    KeysOfAppend(out, Del(key));
  }

  /** One field of an HSCAN reply handled: queued when it is not kept. */
  lemma QueueHDelStep(out: seq<Command>, key: string, base: set<string>, done: set<string>, ids: set<string>, field: string)
    requires FieldsOf(out) == base + (done - ids)
    ensures field !in ids ==> FieldsOf(out + [HDel(key, field)]) == base + ((done + {field}) - ids)
    ensures field in ids ==> FieldsOf(out) == base + ((done + {field}) - ids)
  {
    FieldsOfAppend(out, HDel(key, field));
  }

  /** Queues a DEL of every key of one SCAN reply that is not in `ids`. */
  method QueueDels(cmds: seq<Command>, batch: set<string>, ids: set<string>) returns (out: seq<Command>)
    requires forall i :: 0 <= i < |cmds| ==> cmds[i].Del?
    ensures forall i :: 0 <= i < |out| ==> out[i].Del?
    ensures KeysOf(out) == KeysOf(cmds) + (batch - ids)
  {
    out := cmds;
    var rest := batch;
    ghost var done: set<string> := {};
    while rest != {}
      invariant done <= batch && rest == batch - done
      invariant forall i :: 0 <= i < |out| ==> out[i].Del?
      invariant KeysOf(out) == KeysOf(cmds) + (done - ids)
      decreases |rest|
    {
      var key :| key in rest;
      QueueDelStep(out, KeysOf(cmds), done, ids, key);
      if key !in ids {
        out := out + [Del(key)];
      }
      rest := rest - {key};
      done := done + {key};
    }
  }

  /** Queues an HDEL of every field of one HSCAN reply that is not in `ids`. */
  method QueueHDels(cmds: seq<Command>, key: string, batch: set<string>, ids: set<string>) returns (out: seq<Command>)
    requires forall i :: 0 <= i < |cmds| ==> cmds[i].HDel? && cmds[i].key == key
    ensures forall i :: 0 <= i < |out| ==> out[i].HDel? && out[i].key == key
    ensures FieldsOf(out) == FieldsOf(cmds) + (batch - ids)
  {
    out := cmds;
    var rest := batch;
    ghost var done: set<string> := {};
    while rest != {}
      invariant done <= batch && rest == batch - done
      invariant forall i :: 0 <= i < |out| ==> out[i].HDel? && out[i].key == key
      invariant FieldsOf(out) == FieldsOf(cmds) + (done - ids)
      decreases |rest|
    {
      var field :| field in rest;
      QueueHDelStep(out, key, FieldsOf(cmds), done, ids, field);
      if field !in ids {
        out := out + [HDel(key, field)];
      }
      rest := rest - {field};
      done := done + {field};
    }
  }

  /** One SCAN reply: up to ScanCount of the keys still to be returned, and
      at least one while any is left. Which keys come back is the server's
      choice. */
  method NextBatch(pending: set<string>) returns (batch: set<string>)
    ensures batch <= pending && |batch| <= ScanCount
    ensures pending != {} ==> batch != {} && |pending - batch| < |pending|
  {
    if pending == {} {
      return {};
    }
    var x :| x in pending;
    ghost var w := {x};
    assert w <= pending && |w| <= ScanCount;
    batch :| batch <= pending && 0 < |batch| <= ScanCount;
    assert |pending - batch| + |batch| == |pending| by {
      assert pending == (pending - batch) + batch;
    }
  }

  /** The set of file ids that clearDeletedFileCounters builds first. */
  method CollectFileIds(ds: seq<Download>) returns (ids: set<string>)
    ensures ids == FileIds(ds)
  {
    ids := {};
    for i := 0 to |ds|
      invariant ids == FileIds(ds[..i])
    {
      var d := ds[i];
      for j := 0 to |d.files|
        invariant ids == FileIds(ds[..i]) + set f | f in d.files[..j] :: f.id
      {
        assert forall f :: f in d.files[..j + 1] <==> f in d.files[..j] || f == d.files[j];
        ids := ids + {d.files[j].id};
      }
      assert d.files[..|d.files|] == d.files;
      assert ds[..i + 1][..i] == ds[..i];
    }
    assert ds[..|ds|] == ds;
  }
}
