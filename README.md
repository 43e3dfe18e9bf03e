# fetchtracker, modelled in Dafny

fetchtracker publishes the folders of a work directory as downloads. Each
folder becomes a download with a page and a list of files. It also counts
how often each file is fetched. This project models the core of the
program in Dafny and proves what the core promises:

- **The index run** (`IndexService`, `Storage`). It takes the first 100
  sub-directories of the work directory. Each one goes through a
  folder-to-download adapter, and a folder the adapter rejects is skipped.
  The downloads found are saved, and the run answers a summary of the
  generation it published. A single-flight flag refuses a second run while
  one is in progress. The counter dump writes the counters of every
  download as a JSON array.
- **The blue/green repository** (`Download`, `Stages`, `Reads`, `Keys`,
  `Redis`). It keeps two generations of the published data, `v1` and `v2`,
  in a Redis-like keyspace. The string key `av` names the active one. Save:
  1. resolves the two tags;
  2. clears the standby generation by SCAN and DEL;
  3. writes the batch into it with one pipeline of HSETs;
  4. flips `av`;
  5. runs clearDeletedFileCounters, meant to prune the counters of files
     that left the batch. As written it deletes the `fs:` keys that are not
     file ids and leaves every counter in the hash `fs` in place.

  On the read side, the repository answers file paths, pages, the summary,
  per-download counters, the HINCRBY counter and the SETNX
  unique-user check.
- **The folder adapters** (`Folder`, `NAdapter`, `LegacyAdapter`). They list
  the regular files of a folder that are not skipped, at most 100 of them,
  with ids that hash their paths. `NAdapter` chooses how the page is built
  from the files the folder holds. `LegacyAdapter` reads a markdown
  description and its frontmatter.
- **The markdown and template pieces** (`Parser`, `Resolver`, `NRenderer`,
  `FRenderer`, `TplAdapter`, `Render`):
  - the `[[file]]`, `[[file|description]]` and `[[FILES]]` wiki-link
    parsers;
  - the file resolver, which builds its index lazily;
  - the node renderers;
  - the page-template adapter, whose `file` and `files` helpers run while
    the page template executes.

The store is a value `map<string, Value>`, where a value is a string or a
hash of fields. Every round trip may fail; `Redis.RoundTrip` makes that
choice. A failed write may or may not have been applied. A failed pipeline
may have applied any prefix of its commands. Every contract below holds
whichever round trips fail. Methods that make round trips return a ghost
`lost`, which says whether one failed, so their contracts can state exactly
what happens when none does.

Where the source has one of the defects listed under "## Findings", the
operations follow the code as written: Save keeps stale counters, the
counter dump stops at a file without a counter, `[[FILES]]` renders with
the FILE template, and the wiki-link parsers panic on `[]]`. The intended
behaviour is modelled beside it under its own name (`SaveCorrected`,
`Next`, `RenderFileDirectiveCorrected`, `ParseCorrected`, and so on).

Templates, markdown conversion, frontmatter decoding, SHA-1 ids, path
joins, MIME detection, `Stat`, directory listings and JSON encoding are
function-valued parameters. The clock is an `int` parameter.

## Model

| member | source | states |
|---|---|---|
| Common.Enumerate | internal/repository/download/download.go:83 | Go's `range` over a map visits every key exactly once, in an order the model does not fix |
| Decimal.ParseInt | internal/repository/download/download.go:336-341 | `strconv.Atoi`/`ParseInt(s, 10, 64)` accepts only a non-empty signed decimal that fits in 64 bits |
| Decimal.ParseFormat | internal/repository/download/download.go:422 | round trip: parsing the decimal text of any 64-bit integer gives that integer back |
| Decimal.DigitsRoundTrip | internal/repository/download/download.go:422 | the digits of a natural number read back as that number |
| Decimal.ParseCanonical | internal/repository/download/download.go:309 | HINCRBY accepts a stored counter only when it is in the canonical form the store writes |
| Decimal.ParseCanonicalFormat | internal/repository/download/download.go:309 | every counter HINCRBY writes is accepted by the next HINCRBY |
| Redis.MatchingKeys | internal/repository/download/download.go:155 | a full SCAN with a `prefix*` pattern returns exactly the keys with that prefix |
| Redis.SetNX | internal/repository/download/download.go:299-306 | SETNX sets the key exactly when it was absent and reports that; afterwards the key exists, and a key already there is left alone, so UserExists answers false once, then true |
| Redis.HGet | internal/repository/download/download.go:287 | HGET on a key holding a string is a type error; on a hash-like key it reads the field, or nil |
| Redis.HGetAll | internal/repository/download/download.go:73-76 | HGETALL fails only, with a type error, on a key holding a string, and otherwise reads the hash's fields |
| Redis.Store.constructor | internal/repository/download/download.go:53-58 | the client starts on the given keyspace |
| Redis.Store.Write | internal/repository/download/download.go:120 | a write that succeeds is applied; one whose round trip failed may or may not have been |
| Redis.Store.Exec | internal/repository/download/download.go:206 | a pipeline whose round trip failed applies some prefix of its commands; otherwise it applies all of them and reports the first command error |
| Redis.RunTouchesOnlyNamedKeys | internal/repository/download/download.go:189-206 | a run of commands leaves every key it does not name as it was |
| Redis.RunDels | internal/repository/download/download.go:236 | a run of DELs removes exactly the keys it names |
| Redis.RunHDels | internal/repository/download/download.go:160-167 | a run of HDELs on one hash removes exactly the fields it names; a hash left empty disappears |
| Redis.RunDelsNoError | internal/repository/download/download.go:175-180 | DEL never replies with an error |
| Redis.RunHDelsNoError | internal/repository/download/download.go:175-180 | HDELs on a hash (or an absent key) reply without error, and the key stays hash-like |
| Keys.SplitGetKey | internal/repository/download/download.go:442-444 | `getKey` is invertible: splitting the joined key at ':' gives the parts back when no part holds ':' |
| Keys.GenKey | internal/repository/download/download.go:442-444 | `getKey(ns, ver)` is `ns:ver` |
| Keys.DownloadFilesKey | internal/repository/download/download.go:195 | the per-download hash is `dfm:ver` followed by ':' and the download id |
| Keys.GenPattern | internal/repository/download/download.go:219 | `ns:ver:*` is a prefix pattern matching exactly the keys under `ns:ver:` |
| Keys.FileStatsPattern | internal/repository/download/download.go:146 | `fs:*` matches exactly the keys starting with `fs:`; the hash `fs` has no such prefix |
| Keys.Versions | internal/repository/download/download.go:264-284 | a stored v1 or v2 stays active; anything else, or no key, makes v1 active; the standby is always the other tag |
| Keys.TagOfCleared | internal/repository/download/download.go:218-253 | every key clearOldData removes for a namespace and a tag carries that tag in its name and starts with a namespace's letters |
| Keys.GenerationShape | internal/repository/download/download.go:20-45 | every key of a generation carries its tag and starts with one of dm, fm, df, pc |
| Keys.GenerationsDisjoint | internal/repository/download/download.go:20-45 | no key belongs to both generations, so work on the standby never touches the active one |
| Keys.OutsideGenerations | internal/repository/download/download.go:23-33 | neither `av`, `fs`, a key under `fs:` nor a key under `dl:` belongs to a generation |
| Keys.WrittenKeysInGeneration | internal/repository/download/download.go:192-200 | all four hashes saveNewData writes belong to the generation it writes |
| Keys.WrittenKeysDistinct | internal/repository/download/download.go:192-200 | the four hashes saveNewData writes are pairwise distinct keys |
| Keys.NotClearedOutside | internal/repository/download/download.go:44 | a key that no namespace of ClearableKeys clears lies outside the generation |
| Stages.RunHSetFields | internal/repository/download/download.go:189-206 | a run of HSETs leaves each hash holding its old fields overwritten by the fields written to it, the last write winning |
| Stages.RunHSetNoError | internal/repository/download/download.go:206 | HSETs on keys that hold hashes (or nothing) reply without error |
| Stages.FileUpdates | internal/repository/download/download.go:196-201 | the file HSETs of one download write its file-id -> url map to `fm:ver` and `dfm:ver:id`, and to no other key |
| Stages.DownloadUpdates | internal/repository/download/download.go:190-201 | one download's commands write its folder to `dm:ver`, its page to `pc:ver` and its files to the two file hashes, and nothing else |
| Stages.DownloadFilesKeyInjective | internal/repository/download/download.go:195 | distinct download ids give distinct per-download hashes |
| Stages.SaveUpdatesDownloadMap | internal/repository/download/download.go:190-192 | the pipeline writes `dm:ver` with exactly download id -> folder path of the batch |
| Stages.SaveUpdatesPageMap | internal/repository/download/download.go:193 | the pipeline writes `pc:ver` with exactly download id -> page of the batch |
| Stages.SaveUpdatesFileMap | internal/repository/download/download.go:194-199 | the pipeline writes `fm:ver` with exactly file id -> url over the whole batch |
| Stages.SaveUpdatesDownloadFiles | internal/repository/download/download.go:195-200 | the pipeline writes `dfm:ver:id` with exactly the files of the downloads with that id |
| Stages.FileCommandsWriteGeneration | internal/repository/download/download.go:199-200 | every file command is an HSET on a key of the generation written |
| Stages.SaveCommandsWriteGeneration | internal/repository/download/download.go:189-204 | every command of the pipeline is an HSET on a key of the generation written |
| Stages.Untouched | internal/repository/download/download.go:189-206 | a key that no command names keeps its value |
| Stages.ClearedShape | internal/repository/download/download.go:214-259 | a successful clearOldData leaves no key of the generation and every other key as it was |
| Stages.StagedNoError | internal/repository/download/download.go:206-209 | after clearOldData no command of the save pipeline can fail |
| Stages.StagedHashes | internal/repository/download/download.go:185-212 | after clear then save, `dm`, `pc` and `fm` of the generation hold exactly the batch |
| Stages.StagedHash | internal/repository/download/download.go:185-212 | after clear then save, every hash of the generation holds exactly what the pipeline writes to it |
| Stages.StagedFootprint | internal/repository/download/download.go:108-118 | clear then save changes nothing outside the generation and leaves in it only keys the pipeline wrote |
| Stages.StagedKeeps | internal/repository/download/download.go:108-118 | clear then save keeps any one key outside the generation |
| Stages.StagedDownloadFiles | internal/repository/download/download.go:195-200 | after clear then save, `dfm:ver:id` holds exactly the files of the downloads called `id` |
| Stages.DownloadMapKeys | internal/repository/download/download.go:192-193 | `dm:ver` and `pc:ver` list every download id of the batch and nothing else |
| Stages.DownloadMapLast | internal/repository/download/download.go:192-193 | for a repeated download id the last download of the batch wins, in both hashes |
| Stages.UrlMapKeys | internal/repository/download/download.go:196-200 | a download's file hash is keyed by exactly its file ids |
| Stages.UrlMapUrl | internal/repository/download/download.go:199-200 | when files sharing an id share a url, every file finds its own url |
| Stages.FileMapKeys | internal/repository/download/download.go:194-199 | `fm:ver` lists exactly the file ids of the batch |
| Stages.FileMapUrl | internal/repository/download/download.go:199 | with consistent urls, `fm:ver` maps every file of the batch to its url |
| Stages.DownloadFilesMapAbsent | internal/repository/download/download.go:195-200 | `dfm:ver:id` is empty for an id that no download of the batch has |
| Stages.DownloadFilesMapOf | internal/repository/download/download.go:195-200 | with distinct download ids, `dfm:ver:id` holds exactly the files of the download with that id |
| Stages.PruneCounters | internal/repository/download/download.go:138-183 | the intended prune touches no key but `fs` |
| Stages.PruneCountersRead | internal/repository/download/download.go:138-183 | the intended prune keeps the counter of every file of the batch and removes every other counter |
| Stages.StaleStatKeys | internal/repository/download/download.go:146-166 | the keys clearDeletedFileCounters deletes as written never include `fs`, the hash that holds the counters, nor `av` |
| Stages.StaleOutsideGenerations | internal/repository/download/download.go:146-166 | a key that clearDeletedFileCounters deletes lies in no generation |
| Stages.StaleCounterSurvives | internal/repository/download/download.go:146-166 | concretely, a counter of a file that left the batch survives the as-written prune and is removed by the intended one |
| Stages.FlippedKeeps | internal/repository/download/download.go:99-124 | up to the flip, Save changes no key outside the standby generation but `av` |
| Stages.StaleStatKeysFlipped | internal/repository/download/download.go:107-166 | the writes and the flip leave the `fs:` keys alone, so the prune deletes the stale keys the store held before Save |
| Stages.PruneKeepsGeneration | internal/repository/download/download.go:129-183 | either prune, as written or intended, leaves `av` and the new generation as the flip left them |
| Stages.PublishedGeneration | internal/repository/download/download.go:99-136 | after a successful Save, as written or with the intended prune, `av` names the former standby, whose four hashes hold exactly the batch |
| Stages.FlippedWritten | internal/repository/download/download.go:185-212 | after the flip the standby generation holds only keys the pipeline wrote |
| Stages.PublishedFootprint | internal/repository/download/download.go:99-183 | as written, a successful Save keeps the formerly active generation; outside the standby generation and `av` a key is as it was exactly when it is not a stale `fs:` key, and every stale one is deleted; the new generation holds no stray key |
| Stages.PublishedFootprintCorrected | internal/repository/download/download.go:99-136 | with the intended prune, a successful Save keeps the formerly active generation and every key outside both generations except `av` and `fs`, and leaves no stray key in the new one |
| Stages.PublishedCounters | internal/repository/download/download.go:129-166 | as written, a successful Save leaves every counter in `fs` as it was, those of files that left the batch included |
| Stages.PublishedCountersCorrected | internal/repository/download/download.go:129-133 | with the intended prune, after a successful Save a file of the batch keeps its counter and any other file has none |
| Stages.PartialSave | internal/repository/download/download.go:206-209 | a save pipeline cut short after clearOldData still changes nothing outside the generation |
| Stages.PartialPrune | internal/repository/download/download.go:175-180 | the intended HDEL prune, cut short, keeps every counter of the batch and every other key |
| Stages.WithoutFieldsFrame | internal/repository/download/download.go:160-167 | deleting fields of one hash keeps its other fields and every other key |
| Stages.SaveFootprintKeeps | internal/repository/download/download.go:99-136 | a change confined to the standby generation, `av` and deleted stale `fs:` keys leaves the active generation and `fs` as they were |
| Stages.StandbyOnlyKeepsActive | internal/repository/download/download.go:99-136 | a change confined to the standby generation, `av` and `fs` leaves the active generation as it was |
| Stages.SaveOutcome | internal/repository/download/download.go:99-180 | as written, whichever step of Save fails, outside the standby generation and `av` a key either is as it was or is a stale `fs:` key that was deleted; `fs` is as it was |
| Stages.SaveOutcomeCorrected | internal/repository/download/download.go:99-136 | with the intended prune, whichever step of Save fails, only the standby generation, `av` and `fs` changed, and every counter of the batch is kept |
| Stages.PrunedElsewhere | internal/repository/download/download.go:175-180 | as written, a prune that fails part-way differs from the full prune only in stale `fs:` keys it has not deleted yet |
| Stages.PrunedElsewhereCorrected | internal/repository/download/download.go:129-133 | with the intended prune, a prune that fails part-way agrees with the full prune on every key but `fs` |
| Reads.RowsInOrder | internal/repository/download/download.go:82-94 | Info's rows, in the order the folder map was visited, are exactly one row per download of the generation |
| Reads.FilledListsFiles | internal/repository/download/download.go:414-433 | filling in counters keeps the listing one entry per file of the folder |
| Reads.PipelineErrorWhen | internal/repository/download/download.go:404-412 | the iterator's pipeline fails exactly when some file of the folder has no counter value |
| Reads.PipelineErrorCause | internal/repository/download/download.go:407-412 | the only replies that fail that pipeline are redis.Nil and a type error |
| Reads.UncountedFileAbortsDump | internal/repository/download/download.go:404-412 | concretely, a folder with a never-downloaded file aborts the as-written pipeline, where the per-file code reads 0 |
| Reads.CounterReadingsAgree | internal/repository/download/download.go:324-343 | GetDownloadCounters and the dump read the same counter wherever GetDownloadCounters keeps a file, and the dump reads 0 where it drops one |
| Reads.IncrementOutcome | internal/repository/download/download.go:308-315 | HINCRBY succeeds exactly when `fs` is a hash (or absent), the field is absent or canonical, and the counter is below the 64-bit maximum |
| Reads.IncrementThenRead | internal/repository/download/download.go:308-315 | after a successful increment the field holds the old counter plus one, which both counter reads then return |
| Reads.IncrementFrame | internal/repository/download/download.go:309 | the increment changes no other counter and no other key |
| Reads.PublishedHashLike | internal/repository/download/download.go:99-136 | after Save the four hashes of the new generation hold hashes (or nothing), so reading them never gives a type error |
| Reads.FilePathAfterSave | internal/repository/download/download.go:286-297 | after Save, GetFilePath under the new tag answers nil for a file outside the batch and, when files sharing an id share a url, each file's url |
| Reads.PageAfterSave | internal/repository/download/download.go:353-365 | after Save, GetPage under the new tag answers the page of the last download with that id, and nil for an unknown id |
| Reads.InfoOutcomeRows | internal/repository/download/download.go:70-97 | Info answers its rows when `dm:ver` is a non-empty hash and every `dfm` hash it names is hash-like |
| Reads.InfoRowsAfterSave | internal/repository/download/download.go:70-97 | after Save, the rows are one per download id of the batch, with its folder and its number of distinct file ids |
| Reads.InfoAfterSave | internal/repository/download/download.go:70-97 | after Save, Info under the new tag answers exactly those rows, or NoDownloadsFound for an empty batch |
| Download.DownloadRepository.constructor | internal/repository/download/download.go:55-65 | the repository caches a generation tag |
| Download.DownloadRepository.GetVersions | internal/repository/download/download.go:264-284 | reads `av` and answers (active, standby); v1/v2 are kept, and anything else is reset to v1 by a SET; a failed GET other than "no key" is an error, wrapped with its step |
| Download.DownloadRepository.ClearOldData | internal/repository/download/download.go:214-259 | removes only keys of the given generation, and all of them on success; the errors are the scan and delete failures |
| Download.DownloadRepository.ClearNamespace | internal/repository/download/download.go:218-253 | one namespace: its keys under `ns:ver:` and the hash `ns:ver` go, and nothing else changes |
| Download.DownloadRepository.DeleteMatching | internal/repository/download/download.go:228-248 | the SCAN/DEL loop removes only keys with the prefix, and every one of them when it succeeds |
| Download.DownloadRepository.SaveNewData | internal/repository/download/download.go:185-212 | the keyspace is what a prefix of the queued HSETs makes of it; on success it is the whole pipeline; without a lost round trip it fails exactly when a command fails |
| Download.DownloadRepository.Save | internal/repository/download/download.go:99-136 | as written: on success the standby generation holds the batch, `av` and the cache name it (the other tag when the cache was coherent), the stale `fs:` keys are deleted and every counter stays; on any outcome nothing outside the standby generation and `av` changes but deleted stale `fs:` keys, so the active generation and `fs` are kept; a failed prune leaves only stale keys undeleted; the cache changes only after the flip, and the error names its step |
| Download.DownloadRepository.SaveCorrected | internal/repository/download/download.go:99-136 | with the intended prune: on success the standby generation holds the batch, `av` and the cache name it, and the counters of files outside the batch are removed; on any failure nothing outside the standby generation, `av` and `fs` changes, and the active generation and the batch's counters are kept |
| Download.DownloadRepository.Publish | internal/repository/download/download.go:120-133 | as written: the flip writes only `av` and then the cache; clearDeletedFileCounters then only deletes stale `fs:` keys, all of them on success; each failure is wrapped with its step |
| Download.DownloadRepository.PublishCorrected | internal/repository/download/download.go:120-133 | with the intended prune: the flip writes only `av` and then the cache; the prune writes only `fs` and keeps the batch's counters; each failure is wrapped with its step |
| Download.DownloadRepository.StageStandby | internal/repository/download/download.go:100-118 | getVersions, clearOldData and saveNewData change only the standby generation and `av`; on success the standby holds exactly the batch |
| Download.DownloadRepository.ClearDeletedFileCounters | internal/repository/download/download.go:138-183 | as written: the keys it deletes are exactly the `fs:` keys that are not file ids of the batch; the counter hash `fs` is untouched |
| Download.DownloadRepository.ScanStaleStatKeys | internal/repository/download/download.go:146-173 | the DELs queued by the SCAN loop name exactly those keys, and none are queued when there are none |
| Download.DownloadRepository.PruneFileCounters | internal/repository/download/download.go:138-183 | corrected: on success `fs` keeps exactly the counters of the batch's files; on any outcome it keeps every one of them and touches no other key |
| Download.DownloadRepository.ScanStaleCounters | internal/repository/download/download.go:146-173 | the corrected scan queues one HDEL of `fs` for exactly each counter outside the batch |
| Download.DownloadRepository.Info | internal/repository/download/download.go:70-97 | without a lost round trip it fails exactly as InfoOutcome says; its rows are the generation's rows, one per download, with no id twice |
| Download.DownloadRepository.GetFilePath | internal/repository/download/download.go:286-297 | answers the url in `fm:ver`; a missing field is FileNotFound; any other failure is wrapped with the file id |
| Download.DownloadRepository.GetPage | internal/repository/download/download.go:353-365 | answers the page in `pc:ver`; a missing field is PageNotFound; any other failure is returned unwrapped |
| Download.DownloadRepository.IncFileCounter | internal/repository/download/download.go:308-315 | exactly as HINCRBY on `fs`: the new counter is the stored one plus one and is what the next read returns; a failure is wrapped with the file id, and a lost reply may still have incremented |
| Download.DownloadRepository.UserExists | internal/repository/download/download.go:299-306 | answers whether `dl:id` already existed; after it the key exists |
| Download.DownloadRepository.GetDownloadCounters | internal/repository/download/download.go:317-347 | lists only files of `dfm:ver:id`; each has 0 when it has no counter and its parsed value otherwise; a file whose read fails or whose value does not parse is left out |
| Download.DownloadRepository.DownloadCounterIterator | internal/repository/download/download.go:367-373 | the iterator starts with every folder of `dm:ver` pending; a failed read is wrapped |
| Download.CounterIterator.constructor | internal/repository/download/download.go:374-375 | the iterator holds the folder snapshot, with every folder pending |
| Download.CounterIterator.Next | internal/repository/download/download.go:375-438 | corrected: each step yields one pending folder with every file of its `dfm` hash once, counted; it fails only on a lost round trip or a type error, after which nothing is pending |
| Download.CounterIterator.NextAsWritten | internal/repository/download/download.go:375-438 | as written: a step succeeds only when every file of the folder has a counter; otherwise it fails with redis.Nil or a type error and stops |
| Download.CounterIterator.ExecPipe | internal/repository/download/download.go:396-433 | the pipeline reports the first reply that is not a value, redis.Nil included; on success every file is counted |
| Download.NewDownloadRepository | internal/repository/download/download.go:53-68 | caches the active tag getVersions settles on, with the store's version key naming it; the failure keeps its step in the error |
| Download.ListFiles | internal/repository/download/download.go:396-405 | one counter entry per file of the folder, each with counter 0 |
| Download.FillCounters | internal/repository/download/download.go:414-431 | each entry's counter is its parsed value, or 0 when it is missing, failed or unparsable |
| Download.CountedFiles | internal/repository/download/download.go:414-433 | the folder's listing with every counter filled in from `fs` |
| Download.StaleStatKeysMatching | internal/repository/download/download.go:146-166 | the keys the as-written prune deletes are the `fs:*` matches less the batch's file ids |
| Download.QueueDels | internal/repository/download/download.go:160-167 | one SCAN reply queues a DEL of exactly its keys that are not file ids of the batch |
| Download.QueueHDels | internal/repository/download/download.go:160-167 | one HSCAN reply queues an HDEL of exactly its fields that are not file ids of the batch |
| Download.NextBatch | internal/repository/download/download.go:155 | a SCAN reply returns at most ScanCount of the keys still to come, and at least one while any is left |
| Download.CollectFileIds | internal/repository/download/download.go:139-144 | the set built first is exactly the file ids of the batch |
| Entity.FileIds | internal/repository/download/download.go:139-144 | the file ids of a batch are exactly the ids of its downloads' files |
| Entity.FirstIndexOf | internal/adapter/fsadapter/resolver.go:34-39 | finds the first file with that name, or reports that no file has it |
| Entity.ApplyDescriptions | internal/adapter/fsadapter/fsadapter.go:95-101 | every file named in the frontmatter takes the description given there; every other file is left as it is |
| Storage.DirPathsMembers | internal/storage/index/index.go:50-59 | a path is a candidate exactly when some directory entry joins to it |
| Storage.DirPathsEmpty | internal/storage/index/index.go:61-63 | there is no candidate exactly when the listing has no directory |
| Storage.DirPathsPrefix | internal/storage/index/index.go:50-59 | reading more of the listing only appends candidates |
| Storage.Candidates | internal/storage/index/index.go:17 | the candidates are the directory paths, in order, cut at MaxDirs (100) |
| Storage.ConvertedMembers | internal/storage/index/index.go:99-105 | a download is found exactly when some folder converts to it |
| Storage.ConvertedAll | internal/storage/index/index.go:99-114 | when every folder converts, there is one download per folder, in order |
| Storage.ConvertedPrefix | internal/storage/index/index.go:107-113 | stopping early keeps a prefix of the full result |
| Storage.SelectDirs | internal/storage/index/index.go:50-59 | the candidate loop takes exactly the first MaxDirs directory paths |
| Storage.IndexStorage.constructor | internal/storage/index/index.go:31-37 | a new scanner is not running |
| Storage.IndexStorage.Scan | internal/storage/index/index.go:39-91 | a re-entrant call is refused and the flag is restored; a listing error is returned as it is; no directory gives an empty result; otherwise the result is the conversions of the folders taken, failures skipped, all of them unless interrupted |
| Storage.IndexStorage.Work | internal/storage/index/index.go:93-117 | the worker converts each folder once, in order, skipping failures, and may stop at a cancellation point |
| IndexService.ItemsJoin | internal/service/index/index.go:63-81 | the dump written item after item is the encodings joined with commas |
| IndexService.ItemsEnd | internal/service/index/index.go:76-81 | the items never end with "]", which only a complete dump writes |
| IndexService.Encodings | internal/service/index/index.go:76-78 | the encodings line up one for one with the dumped downloads |
| IndexService.AllCountedEach | internal/service/index/index.go:66-79 | every dumped download carries the counters of its files |
| IndexService.ProgressStart | internal/service/index/index.go:65-66 | before the first item every folder is pending |
| IndexService.ProgressDone | internal/service/index/index.go:66-81 | once nothing is pending, every folder has been dumped exactly once |
| IndexService.ProgressStep | internal/service/index/index.go:66-79 | dumping a pending folder moves it from pending to dumped |
| IndexService.DumpedFilesCounted | internal/repository/download/download.go:404-412 | a dump that covered every folder, each item with a counter for every file, leaves no file of those folders without a counter |
| IndexService.Pull | internal/service/index/index.go:66-69 | one as-written iterator step yields a pending folder, strictly shrinks what is pending, and keeps every dumped item counted, with a counter in `fs` for each of its files |
| IndexService.IndexerService.constructor | internal/service/index/index.go:33-39 | a new service is not running |
| IndexService.IndexerService.Index | internal/service/index/index.go:86-123 | refused while running, with nothing touched; scan errors are wrapped; an empty scan is "cannot find dirs", with nothing saved; on success the store is the batch as Save publishes it (stale `fs:` keys deleted, every counter kept) and the rows are one per download of the batch; the flag is restored |
| IndexService.IndexerService.SaveAndReport | internal/service/index/index.go:109-122 | Save then Info; on success the store is the batch as Save publishes it and the rows are exactly those of that batch; each failure is wrapped with its step |
| IndexService.IndexerService.DumpCounters | internal/service/index/index.go:41-84 | refused while running; on success the file holds "[\n", every folder of the active generation once, counted and encoded, joined with commas, then "]"; it succeeds only when every file of every folder has a counter in `fs`, so one never-downloaded file stops it; the dump ends with "]" exactly when it succeeded |
| IndexService.IndexerService.WriteArray | internal/service/index/index.go:63-81 | the loop writes one item per folder the iterator yields, each with a counter for every file, and closes the array only once the iterator is exhausted |
| IndexService.IndexerService.DumpNext | internal/service/index/index.go:66-79 | one turn keeps the dump's shape, keeps every dumped file counted and strictly shrinks what is pending; a failure leaves the dump without its "]" |
| IndexService.IndexerService.Emit | internal/service/index/index.go:71-78 | one item: a comma before every item but the first, then the encoding; nothing more once encoding fails |
| Folder.EligibleMembers | internal/adapter/nadapter/fsadapter.go:446-458 | a name is eligible exactly when a regular file of that name is listed and it is not skipped |
| Folder.EligibleEmpty | internal/adapter/nadapter/fsadapter.go:445-482 | nothing is kept exactly when every entry is a directory or a skipped name |
| Folder.EligiblePrefix | internal/adapter/nadapter/fsadapter.go:445-482 | reading more of the listing only appends names |
| Folder.EligibleStep | internal/adapter/nadapter/fsadapter.go:446-477 | one more entry adds its name exactly when it is a regular file that is not skipped |
| Folder.KeptAt | internal/adapter/nadapter/fsadapter.go:479-481 | where the loop stops (end of listing, or MaxFiles names) the names so far are the kept ones |
| Folder.Kept | internal/adapter/nadapter/fsadapter.go:28 | the kept names are the eligible ones, in order, cut at MaxFiles (100) |
| Folder.SkipSet | internal/adapter/nadapter/fsadapter.go:93-99 | the skip set is the fixed names together with every configured one |
| Folder.CollectFiles | internal/adapter/nadapter/fsadapter.go:444-484 | the loop makes one file per kept name, in order |
| Folder.FolderFiles | internal/adapter/nadapter/fsadapter.go:444-484 | both adapters list one file per kept name, in order, made by their own file constructor |
| Folder.ReadFiles | internal/adapter/nadapter/fsadapter.go:438-485 | readFiles of either adapter: a listing error is returned as it is; otherwise the kept entries become files, in listing order |
| LegacyAdapter.FsAdapter.constructor | internal/adapter/fsadapter/fsadapter.go:45-64 | the skip set is the description file and every configured name |
| LegacyAdapter.FsAdapter.GetFolderDesc | internal/adapter/fsadapter/fsadapter.go:155-182 | without a description file: the base name, enabled, no description; otherwise the HTML and frontmatter of the file; each failure has its own message |
| LegacyAdapter.FsAdapter.ToDownload | internal/adapter/fsadapter/fsadapter.go:66-106 | refuses `..`, then a listing error, then a folder without files, then a failed description; otherwise the download takes the hash, title, flag and description, and every file named in the frontmatter takes its description |
| LegacyAdapter.UndescribedFolder | internal/adapter/fsadapter/fsadapter.go:155-162 | a folder without a description file becomes an enabled download titled by its base name, with its files as listed |
| LegacyAdapter.DescribedKeepsFile | internal/adapter/fsadapter/fsadapter.go:95-101 | a description changes only a file's description, never its id, name, path or size |
| NAdapter.ModeStringAsWritten | internal/adapter/nadapter/fsadapter.go:48-50 | as written: the raw mode value indexes the four-entry table; any value outside 0..3 panics |
| NAdapter.ModeStringAsWrittenPanics | internal/adapter/nadapter/fsadapter.go:27-50 | every declared mode (iota 9 to 12) makes the as-written String panic |
| NAdapter.ModeString | internal/adapter/nadapter/fsadapter.go:40-50 | corrected: the mode's position in the table is its value less that of the first mode |
| NAdapter.ModeStringNames | internal/adapter/nadapter/fsadapter.go:40-50 | the corrected String gives each mode its own name, and distinct modes distinct names |
| NAdapter.FsAdapter.constructor | internal/adapter/nadapter/fsadapter.go:92-120 | the skip set is the index page, description and template names plus every configured name |
| NAdapter.FsAdapter.Skeleton | internal/adapter/nadapter/fsadapter.go:177-184 | the download before its page: the folder's hash and base name, enabled, created now, with the folder's files and no page |
| NAdapter.FsAdapter.GetParseMode | internal/adapter/nadapter/fsadapter.go:319-333 | Index exactly when the index page exists; DefaultIndex exactly when neither it nor the description exists; MdCustomTemplate exactly when only the description and the template exist |
| NAdapter.FsAdapter.ToDownload | internal/adapter/nadapter/fsadapter.go:163-197 | refuses `..`, then a listing error, then a folder without files; the markdown modes panic in getFrontmatter; a failed index page is wrapped "cannot parse index page"; otherwise the page is the rendered index page, with its hash |
| NAdapter.ToDownloadFiles | internal/adapter/nadapter/fsadapter.go:445-482 | every listed file is a regular, not skipped entry of its folder, identified by the hash of its own path, and there are at most MaxFiles of them |
| NAdapter.NoFilesRefused | internal/adapter/nadapter/fsadapter.go:173-175 | a folder with only directories and skipped names has no kept file, so it is refused |
| Resolver.LastIndex | internal/adapter/fsadapter/resolver.go:44-51 | the index maps names only to positions in the list |
| Resolver.LastIndexSpec | internal/adapter/fsadapter/resolver.go:44-51 | a name is indexed exactly when some file has it, and then at the last position holding it |
| Resolver.Resolve | internal/adapter/fsadapter/resolver.go:23-42 | a lookup answers a position holding that name, and fails with "cannot find file" exactly when no file has it; the call that builds the index answers the last such position, every other call the first |
| Resolver.ResolveDistinct | internal/adapter/fsadapter/resolver.go:23-42 | with distinct names, the index and the scan answer the same |
| Resolver.ResolveDuplicate | internal/adapter/fsadapter/resolver.go:23-51 | with a repeated name, the call that builds the index answers a later file than every other call |
| Resolver.FileResolver.constructor | internal/adapter/fsadapter/resolver.go:19-21 | a new resolver has no index |
| Resolver.FileResolver.BuildIndex | internal/adapter/fsadapter/resolver.go:44-51 | builds the last-position index of the list, which it never changes |
| Resolver.FileResolver.Scan | internal/adapter/fsadapter/resolver.go:34-39 | the scan answers the first file of that name |
| Resolver.FileResolver.GetFile | internal/adapter/fsadapter/resolver.go:23-42 | never changes the list; only the first lookup on more than five files builds the index; the answer is Resolve's |
| Resolver.NewTemplateResolver | internal/adapter/fsadapter/resolver.go:70-85 | succeeds exactly when FILE and FILES are both defined; FILE is checked first |
| Parser.IndexFirst | internal/adapter/nadapter/mdadapter/parser.go:63 | `bytes.Index` answers the first occurrence, or -1 when there is none |
| Parser.Utf8Length | internal/adapter/nadapter/mdadapter/parser.go:69 | `len` of a Go byte slice: the UTF-8 length is at least the number of characters, and equal to it exactly when every character is ASCII |
| Parser.NbspLink | internal/adapter/nadapter/mdadapter/parser.go:61-79 | Unicode white space such as NO-BREAK SPACE is trimmed from a link name, as `bytes.TrimSpace` does: `[[NBSP a.txt]]` links to `a.txt` |
| Parser.NbspFiles | internal/adapter/nadapter/mdadapter/parser.go:156-161 | `[[NBSP FILES]]` opens a files block |
| Parser.ShortUnicodeLine | internal/adapter/nadapter/mdadapter/parser.go:69 | the length test counts bytes: the four-character line `[é]]` is five bytes long and passes it |
| Parser.TrimSpaceCuts | internal/adapter/nadapter/mdadapter/parser.go:68 | TrimSpace cuts only white space, and what it leaves neither starts nor ends with white space |
| Parser.TrimSpaceCutSpaces | internal/adapter/nadapter/mdadapter/parser.go:68 | every character TrimSpace removes, on either side, is white space |
| Parser.TrimSpaceEnds | internal/adapter/nadapter/mdadapter/parser.go:68 | what TrimSpace leaves is empty or neither starts nor ends with white space |
| Parser.TrimSpaceSlice | internal/adapter/nadapter/mdadapter/parser.go:68 | TrimSpace leaves a contiguous slice of its input |
| Parser.TrimSpaceIdempotent | internal/adapter/nadapter/mdadapter/parser.go:156-161 | trimming twice is trimming once, so Open's second trim changes nothing |
| Parser.TrimSpaceTrimmed | internal/adapter/nadapter/mdadapter/parser.go:68 | text that neither starts nor ends with white space is left as it is |
| Parser.SplitAtPipe | internal/adapter/nadapter/mdadapter/parser.go:82-85 | a reference splits at its first pipe character |
| Parser.ReferenceWithoutDescription | internal/adapter/nadapter/mdadapter/parser.go:91 | a reference without a pipe character is the whole text, trimmed, with no description |
| Parser.ReferenceWithDescription | internal/adapter/nadapter/mdadapter/parser.go:82-88 | a name and a description joined by a pipe read back as its two halves, trimmed |
| Parser.ReferenceDropsExtra | internal/adapter/nadapter/mdadapter/parser.go:83-87 | anything after a second pipe character is dropped |
| Parser.InlineScanAsWritten | internal/adapter/nadapter/mdadapter/parser.go:61-79 | as written: no `]]` is no link; a `]]` before position 2 is a slice panic; a link advances exactly past its first `]]` |
| Parser.InlineScan | internal/adapter/nadapter/mdadapter/parser.go:61-79 | corrected: only a line opening with `[[` is a link, never a panic, and then the as-written parse applies |
| Parser.InlineScanAsWrittenMisreads | internal/adapter/nadapter/mdadapter/parser.go:57-68 | `[]]` panics and `[a [[b]]` is taken for a link by the as-written parser; the corrected one accepts neither |
| Parser.InlineScanLink | internal/adapter/nadapter/mdadapter/parser.go:61-92 | `[[name]]`, and a name and a description joined by a pipe in double brackets, at the start of a line are links to that name with that description, consuming exactly the link |
| Parser.OpeningLink | internal/adapter/nadapter/mdadapter/parser.go:61-75 | a trimmed `[[inner]]` at the start of a line is a link whose reference is `inner` |
| Parser.ReferenceOf | internal/adapter/nadapter/mdadapter/parser.go:81-92 | the text of a link to `name` with `desc` reads back as the two |
| Parser.ReferencePair | internal/adapter/nadapter/mdadapter/parser.go:81-92 | a name and a description joined by a pipe, both trimmed and free of pipes and `]`, is itself trimmed and reads back as the pair |
| Parser.NoCloseInOpening | internal/adapter/nadapter/mdadapter/parser.go:63-68 | on a line opening with `[[`, `]]` cannot occur at position 0 or 1, so the slice `b[2:end]` is safe |
| Parser.FirstClose | internal/adapter/nadapter/mdadapter/parser.go:63 | when the text before a `]]` holds no `]`, `bytes.Index` finds that `]]` first |
| Parser.FilesScan | internal/adapter/nadapter/mdadapter/parser.go:149-168 | corrected: a files block exactly when the line opens with `[[` and the trimmed text before the first `]]` is FILES; on such lines it agrees with the as-written check |
| Parser.FilesScanAsWrittenMisreads | internal/adapter/nadapter/mdadapter/parser.go:145-161 | the as-written block parser panics on `[]]` and takes `[ FILES]]` for a files block, which the corrected one refuses |
| Parser.Found | internal/adapter/nadapter/mdadapter/parser.go:111 | a successful lookup finds a file of that name in the resolver's list |
| Parser.FileNodeOf | internal/adapter/nadapter/mdadapter/parser.go:94-141 | a file node for the file name; it has no error exactly when both resolvers exist, the lookup succeeds, FILE exists and executes on the described copy; an erroneous node has no HTML |
| Parser.DescribedCopy | internal/adapter/nadapter/mdadapter/parser.go:118-122 | the link's file differs from the resolver's only in its description, which a non-empty link description replaces |
| Parser.FileNodeCheckOrder | internal/adapter/nadapter/mdadapter/parser.go:97-129 | the checks come in the source's order, each with its own error |
| Parser.FilesNodeOf | internal/adapter/nadapter/mdadapter/parser.go:170-206 | a files node; it has no error exactly when both resolvers and FILES exist and FILES executes over the resolver's files, whose output is its HTML |
| Parser.LineEnd | internal/adapter/nadapter/mdadapter/parser.go:62 | the peeked line runs to just past the first newline, or to the end of the text |
| Parser.TextReader.constructor | internal/adapter/nadapter/mdadapter/parser.go:61 | a reader starts at the beginning of its text |
| Parser.TextReader.PeekLine | internal/adapter/nadapter/mdadapter/parser.go:62 | the peeked line is the text from the reader's position |
| Parser.TextReader.Advance | internal/adapter/nadapter/mdadapter/parser.go:75 | advancing moves the position forward, never past the end |
| Parser.MakeFileNode | internal/adapter/nadapter/mdadapter/parser.go:94-141 | builds FileNodeOf's node from the resolver's state before the call; the resolver's files never change |
| Parser.Parse | internal/adapter/nadapter/mdadapter/parser.go:57-79 | as written: a line whose first `]]` starts before position 2 panics, with nothing consumed; otherwise no link leaves the reader where it was, a line shorter than 5 UTF-8 bytes is an invalid-syntax node without advancing, and a line whose first `]]` starts at position 2 or later (`[a [[b]]` included) is a link that advances past that `]]` and is the node of its reference |
| Parser.ParseCorrected | internal/adapter/nadapter/mdadapter/parser.go:57-79 | corrected: never panics; only a line opening with `[[` is a link, with the same nodes and advances as written |
| Parser.ParseScanned | internal/adapter/nadapter/mdadapter/parser.go:64-79 | what Parse does with a scanned line that did not panic |
| Parser.ParseLink | internal/adapter/nadapter/mdadapter/parser.go:75-78 | advances by the link and answers the node of its file name and description |
| Parser.MakeFilesNode | internal/adapter/nadapter/mdadapter/parser.go:170-206 | builds FilesNodeOf's node from the resolvers |
| Parser.Open | internal/adapter/nadapter/mdadapter/parser.go:145-168 | as written: a line whose first `]]` starts before position 2 panics, with nothing consumed; otherwise a files block, `[ FILES]]` included, consumes its whole line and is FilesNodeOf's node, and anything else leaves the reader where it was; the block takes no children |
| Parser.OpenCorrected | internal/adapter/nadapter/mdadapter/parser.go:145-168 | corrected: a files block exactly when the line opens with `[[` and names FILES; it consumes its whole line and is FilesNodeOf's node; anything else leaves the reader where it was |
| Parser.OpenScanned | internal/adapter/nadapter/mdadapter/parser.go:162-167 | a files block consumes its whole line and becomes the files node; anything else is not consumed |
| Parser.Continue | internal/adapter/nadapter/mdadapter/parser.go:209-211 | a files block never continues past its line |
| NRenderer.RenderTemplateAsWritten | internal/adapter/nadapter/mdadapter/renderer.go:89-101 | as written: whatever name is asked for, the FILE template is executed; only the error message names the template asked for |
| NRenderer.RenderTemplate | internal/adapter/nadapter/mdadapter/renderer.go:89-101 | corrected: the template of the name asked for is executed, and its absence is reported by that name |
| NRenderer.RenderTemplateAsWrittenIgnoresName | internal/adapter/nadapter/mdadapter/renderer.go:89-90 | any successful as-written render is the corrected render of FILE, and the two agree when FILE is asked for |
| NRenderer.RenderTemplateAsWrittenMisrenders | internal/adapter/nadapter/mdadapter/renderer.go:51 | concretely, `[[FILES]]` renders FILE's output as written and FILES's output as intended |
| NRenderer.FileDirectiveRenderer.constructor | internal/adapter/nadapter/mdadapter/renderer.go:23-25 | the renderer holds its resolver and templates |
| NRenderer.FileDirectiveRenderer.RenderFileDirective | internal/adapter/nadapter/mdadapter/renderer.go:31-87 | as written: leaving does nothing; an unknown node or file stops with nothing written; `[[FILES]]` is rendered by the FILE template over the resolver's files, so its only output is FILE's; a directive's description is stored on the resolver's file before the FILE template runs; output only after a successful render |
| NRenderer.FileDirectiveRenderer.RenderFileDirectiveCorrected | internal/adapter/nadapter/mdadapter/renderer.go:31-87 | corrected: the same, but `[[FILES]]` is rendered by the FILES template |
| NRenderer.FileDirectiveRenderer.RenderWith | internal/adapter/nadapter/mdadapter/renderer.go:31-87 | the walk step over any template lookup: what each kind of node renders, that the description is stored before the render, and that output comes only from a successful render |
| FRenderer.RenderFileNode | internal/adapter/fsadapter/mdadapter/renderer.go:22-39 | on entering, a file node without error writes its HTML and continues; any other node or an error stops the walk, with the error wrapped; on leaving nothing happens |
| FRenderer.RenderFilesNode | internal/adapter/fsadapter/mdadapter/renderer.go:52-69 | the same on leaving a files node; entering does nothing |
| FRenderer.VisitWritesOnce | internal/adapter/fsadapter/mdadapter/renderer.go:22-69 | over a whole visit a node without error writes its HTML exactly once, and one with an error writes nothing and ends the walk with it |
| TplAdapter.Located | internal/adapter/tpladapter/adapter.go:67-79 | no download, no file; otherwise the first file of that name |
| TplAdapter.WithDescription | internal/adapter/tpladapter/adapter.go:92-96 | only the one file's description changes, in the download itself |
| TplAdapter.WithDescriptionKeepsLookups | internal/adapter/tpladapter/adapter.go:87-96 | setting a description moves no file: later lookups find what they found before, and the file keeps its new description |
| TplAdapter.FirstIndexOfNames | internal/adapter/tpladapter/adapter.go:72-76 | lists that name their files alike have the same first match |
| TplAdapter.TplAdapter.constructor | internal/adapter/tpladapter/adapter.go:30-54 | a new adapter holds its parsed template and no download |
| TplAdapter.TplAdapter.Parse | internal/adapter/tpladapter/adapter.go:56-65 | the download is stored before the template runs; a failure is wrapped |
| TplAdapter.TplAdapter.LookupFile | internal/adapter/tpladapter/adapter.go:67-79 | the search answers Located: the first file of that name in the current download |
| TplAdapter.TplAdapter.RenderFile | internal/adapter/tpladapter/adapter.go:81-104 | FILE must exist, then the file; its description becomes the first argument or its own name, on the download itself, before FILE runs; the failures leave the download alone |
| TplAdapter.TplAdapter.RenderFiles | internal/adapter/tpladapter/adapter.go:106-118 | FILES must exist; without a download it panics; otherwise it renders the download's files, and a failure is reported under the FILE name, as written |

## Left out

- Concurrency is not modelled. The worker pool of the scanner runs as one sequential worker, and a cancellation is a point where it may stop. The atomic flags are plain fields and the atomic version cache is a plain field.
- Storage.IndexStorage.Work: a conversion that fails with a panic (`Err(Panic(...))`, as NAdapter.FsAdapter.ToDownload does in getFrontmatter at internal/adapter/nadapter/fsadapter.go:335) is skipped like any other error. In Go a panic in a worker goroutine ends the whole process, which the model does not represent. The wiring in this snapshot is inconsistent: internal/app/app.go:76 calls `fsadapter.NewFSAdapter(cfg, log)` with two arguments and two results, which matches the constructor of internal/adapter/nadapter/fsadapter.go:88 and not the three-argument legacy one at internal/adapter/fsadapter/fsadapter.go:45. So the adapter the program builds may well be NAdapter, whose markdown modes reach that panic.
- Parser.InlineScanAsWritten: the text is a sequence of Unicode characters, not of UTF-8 bytes. Where a line opens with a single `[` followed by a non-ASCII character, Go's `b[2:end]` starts inside that character and yields bytes that are not valid UTF-8; the model slices after the second character instead. Positions and advances are counted in characters. Lines that open with `[[` are not affected.
- Parser.Parse: inherits that gap from InlineScanAsWritten. On `[é]]` Go links to the name made of the second byte of `é`, where the model links to the empty name.
- Parser.FilesScanAsWritten: the same gap. On a line such as `[é FILES]]` Go's slice starts inside `é` and the text is not FILES, so Go refuses the line, where the model opens a files block.
- Parser.Open: inherits that gap from FilesScanAsWritten.
- Storage.IndexStorage.Scan: the result keeps the order of the candidate folders. With several workers the Go code receives the downloads in any order, and an interruption may drop any of them, not only a suffix. With `Workers = 0` it converts nothing.
- Redis itself is modelled only as far as the repository uses it. That covers GET, SET, SETNX, HGET, HGETALL, HSET, HDEL, HINCRBY, DEL, SCAN, and pipelines. SCAN is a sequence of reply batches over a snapshot of the keyspace, since no other client writes concurrently in the model.
- Download.DownloadRepository.UserExists: the 24-hour expiry of `dl:` keys is not modelled, so a user key, once set, stays.
- IndexService.IndexerService.DumpCounters: only the as-written dump is modelled as a whole; the corrected iterator step is Download.CounterIterator.Next, without a dump loop of its own.
- IndexService.IndexerService.DumpCounters: errors of `w.Write`, and of closing the file, are ignored by the source and are not modelled. The JSON encoding is the parameter `encode`.
- The markdown pipeline is not modelled: goldmark conversion, its AST walk, GFM extensions and frontmatter decoding. Those are parameters. The nodes reach the renderers one at a time.
- Template parsing and execution (`html/template`, `text/template`) are parameters. That covers the choice of the default or the folder's own template in `getTemplate` (internal/adapter/nadapter/fsadapter.go:339-420). It also covers reading the template file in `NewTplAdapter`.
- NAdapter.FsAdapter.ToDownload: parseMarkdown is modelled only up to its first call, getFrontmatter, which panics ("not implemented"). What parseMarkdown does after that (frontmatter overlay, prebuild, conversion) can never run.
- SHA-1 ids, `filepath.Join`/`Base`/`Ext`, `Stat`, `ReadDir`, `ReadFile` and the MIME probe (extension table, then content sniffing of the first 512 bytes) are the parameters `paths` and `fs`. The URL cleaning of internal/adapter/nadapter/fsadapter.go:452 is the parameter `fileUrl`.
- Logging (`slog`) and the debug print at internal/adapter/nadapter/mdadapter/parser.go:175 are left out.
- The HTTP handlers, the counter and page services, configuration loading and `main` are not part of this model.
- `time.Time` is an `int`, and `CreatedAt`/`UpdatedAt` are a `now` parameter.
- The definition of `entity.ShareInfo` is not part of this model. Its three fields are taken from their use in internal/repository/download/download.go:89-93.
- Go's `int64` file sizes and counters are unbounded integers, except where HINCRBY and `strconv` bound them. There the 64-bit range is written out in `Decimal` and `Redis.HIncrBy`.

## Findings

| source | as written | input that shows it | evidently intended | confidence | as-written member | corrected member |
|---|---|---|---|---|---|---|
| internal/repository/download/download.go:146-166 | clearDeletedFileCounters SCANs keys matching `fs:*` and DELs those that are not file ids; the counters are fields of the single hash `fs` (line 309) | `fs = {"gone": "5"}`, a batch without file `gone`: the SCAN returns nothing and the counter survives | scan the fields of `fs` and HDEL those of files that left the batch | not executed | Download.DownloadRepository.ClearDeletedFileCounters, Download.DownloadRepository.Save, Stages.StaleStatKeys, Stages.PublishedCounters, Stages.StaleCounterSurvives | Download.DownloadRepository.PruneFileCounters, Download.DownloadRepository.SaveCorrected, Stages.PruneCountersRead, Stages.PublishedCountersCorrected |
| internal/adapter/nadapter/fsadapter.go:27-50 | the ParseMode constants share a const block with nine constants before them, so `iota` gives them 9 to 12, and String indexes a four-entry table with that value | `ParseModeIndex.String()`: index 9 out of range, a panic | index by the mode's position (value less ParseModeIndex) | not executed | NAdapter.ModeStringAsWritten, NAdapter.ModeStringAsWrittenPanics | NAdapter.ModeString, NAdapter.ModeStringNames |
| internal/adapter/nadapter/mdadapter/renderer.go:89-93 | renderTemplate always looks up FILE, whatever name it is given | a `[[FILES]]` directive with FILE printing "one" and FILES printing "all" renders "one" | look up the template named by `tmplName` | not executed | NRenderer.RenderTemplateAsWritten, NRenderer.FileDirectiveRenderer.RenderFileDirective, NRenderer.RenderTemplateAsWrittenIgnoresName, NRenderer.RenderTemplateAsWrittenMisrenders | NRenderer.RenderTemplate, NRenderer.FileDirectiveRenderer.RenderFileDirectiveCorrected |
| internal/repository/download/download.go:404-412 | the dump pipelines one HGET of `fs` per file; go-redis reports the first failed command, redis.Nil included, as the error of Exec, so the per-file fallback to 0 at lines 417-420 is never reached for a missing counter | a folder whose file `f` was never downloaded (`fs` has no field `f`): the dump stops with "cannot get counters: cannot exec pipe: redis: nil" | count a file without a counter as 0 and go on | not executed; rests on go-redis pipeline semantics | Download.CounterIterator.NextAsWritten, Download.CounterIterator.ExecPipe, IndexService.IndexerService.DumpCounters, Reads.UncountedFileAbortsDump | Download.CounterIterator.Next |
| internal/adapter/nadapter/mdadapter/parser.go:57-79, 145-168 | both parsers assume the peeked line opens with `[[`, but goldmark calls a parser at any byte of its trigger, so at a single `[` too; they then slice `b[2:end]` | `[]]`: `end` is 1 and the slice panics. `[a [[b]]` is taken for a link. `[ FILES]]` is taken for a files block | refuse a line that does not open with `[[` | not executed | Parser.InlineScanAsWritten, Parser.Parse, Parser.Open, Parser.InlineScanAsWrittenMisreads, Parser.FilesScanAsWrittenMisreads | Parser.InlineScan, Parser.FilesScan, Parser.ParseCorrected, Parser.OpenCorrected |
