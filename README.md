# Catalog sync model

This project models the catalog downloader of SDPodTest in Dafny and proves
properties of the model. The downloader syncs one version of a product
catalog into an application-group container. A sync has two stages:

- **First batch.** It downloads the packaged SQLite database (a zip archive)
  and, for a *full* sync, one zip archive of images per image URL.
- **Delta step.** A *delta* sync then diffs the staged database against the
  installed one by image hash, and downloads each new image on its own.

Once nothing is outstanding, the staged files are moved into place. Then the
settings record the sync, and the delegate hears `downloadProgress(1.0)` and
`downloadFinished`. Any error except a single image's failure stops the sync
and is reported with its raw code.

The model is split by source file:

| Dafny module (file) | Source file | Form |
|---|---|---|
| `Configurations` (configurations.dfy) | Configurations.swift | constants, error enum with raw codes and descriptions |
| `FileSystemModel` (filesystem.dfy) | Foundation's `FileManager`, as used by the files below | abstract file system: `map<Path, Node>` plus a set of locked paths |
| `FileManagerUtility` (file_manager_utility.dfy) | FileManagerUtility.swift | path builders and settings as functions; file operations as methods on the `FileSystem` object |
| `DownloadItems` (download_item.dfy) | DownloadItem.swift | class `DownloadItem` whose fields other components update in place |
| `CatalogDatabase` (catalog_db_manager.dfy) | CatalogDBManager.swift | class with the three-state open/close machine |
| `ProductImages` (product_images_api.dfy) | ProductImagesAPI.swift | loops proved against the filter functions `Selected` and `DeltaUrls` |
| `Sessions` (url_session_manager.dfy) | URLSessionManager.swift | class holding the batch; retry policy also stated as a function |
| `Catalog` (catalog_manager.dfy) | CatalogManager.swift, CatalogItem.swift | class `CatalogManager` with its state and event methods |

### How the environment is modelled

- **Environment oracles.** Within one event, the answers of the environment
  are the record `Env`:
  - URL parsing;
  - the rows of the two databases, and whether each opens;
  - the archive library's verdict on the SQLite archive, and the content it
    extracts;
  - the clock;
  - a fresh UUID.
- **Other oracles.** The image decoder's verdict is the parameter `decodes`.
  Permission failures of the file system are the set `locked`.
- **Delegate callbacks.** These are appended to the log `notifications`, in
  the order they are issued.
- **Callbacks from the coordinator to the orchestrator.** The coordinator's
  event methods *return* the item they would report. The orchestrator's
  `On…` methods then pass it to `DownloadItemCompleted`.
- **Image-archive unpacking.** This runs in the background in the source. It
  is the separate event `ZipProcessed`.

### Behaviour of the code that the model keeps

- **The commit is not atomic.** `moveTempFilesToFinalDirectory` moves the
  database before it lists the staged images. A delta sync whose listing
  fails returns false after the installed database was already replaced.
- **Failures to move individual files are ignored** during the commit.
- **Progress after a fatal error.** An item carrying a fatal error stops the
  sync, and progress is still reported afterwards. That progress is computed
  over the emptied batches: 0 for a full sync, one half before the delta
  list exists, and 1 after it. `stop` empties the delta list but does not
  forget it, so a failed delta sync reports 100 %.
- **The SQLite archive's unzip failure is swallowed.** The item stays
  Completed, and it keeps pointing at the archive.
- **Delta URLs are not de-duplicated.**
- **Rows take part only with a hash longer than one character**, on both
  sides of the diff.
- **`start` announces the stored `percentageComplete` before any reset.**
  That value can be left over from an earlier session.
- **The version check in `start` is dead.** It compares the version with
  itself, and it is omitted.
- **`openDataBase` with the already-open type returns the existing handle**
  even when a different version is asked for.

## Model

| member | source | states |
|---|---|---|
| Configurations.RawValue | SDPodTest/Framework/Communication/Configurations.swift:30-37 | every error's raw code is -1001 or one of 4004 to 4009 |
| Configurations.FromRawValue | SDPodTest/Framework/Communication/Configurations.swift:30-37 | the failable initialiser is defined on exactly the seven raw codes |
| Configurations.Description | SDPodTest/Framework/Communication/Configurations.swift:39-49 | every error case has a non-empty description |
| Configurations.RawValueRoundTrip | SDPodTest/Framework/Communication/Configurations.swift:30-37 | raw value and initialiser are inverse in both directions |
| Configurations.RawValuesDistinct | SDPodTest/Framework/Communication/Configurations.swift:31-37 | no two error kinds share a raw code |
| Configurations.RetryBudget | SDPodTest/Framework/Communication/Configurations.swift:11 | `MaxRetryRequest` is 3, so the retry bound `MaxRetryRequest - 1` is positive |
| Configurations.DatabaseRenameIsNotIdentity | SDPodTest/Framework/Communication/Configurations.swift:13-14 | the archive's database name differs from the canonical one, so the rename really moves a file |
| FileSystemModel.FileSystem.RemoveItem | SDPodTest/Framework/Communication/FileManagerUtility.swift:152-163 | removal succeeds exactly when permitted, and then drops the whole subtree; otherwise nothing changes |
| FileSystemModel.FileSystem.MoveItem | SDPodTest/Framework/Communication/FileManagerUtility.swift:141-146 | a move succeeds exactly when permitted and the target is free, and then re-roots the subtree |
| FileSystemModel.FileSystem.CreateDirectory | SDPodTest/Framework/Communication/FileManagerUtility.swift:172-179 | directory creation with intermediates succeeds exactly when permitted, and then adds the missing ancestors |
| FileSystemModel.FileSystem.ContentsOfDirectory | SDPodTest/Framework/Communication/FileManagerUtility.swift:200 | listing fails exactly on a non-directory; otherwise it yields each child name exactly once |
| FileSystemModel.CreatedIsDirectory | SDPodTest/Framework/Communication/FileManagerUtility.swift:186 | after a successful creation the path is a directory |
| FileSystemModel.WithDirectoriesKeeps | SDPodTest/Framework/Communication/FileManagerUtility.swift:174 | creating directories never removes or alters an existing entry |
| FileManagerUtility.Layout | SDPodTest/Framework/Communication/FileManagerUtility.swift:50-97 | temp/v and temp/v/images nest as built; the temp and zip database paths coincide; the final folder "Images" differs from the temp "images"; no staging path lies under a final path |
| FileManagerUtility.SyncCompletionDateRoundTrip | SDPodTest/Framework/Communication/FileManagerUtility.swift:32-46 | the completion date reads back what was stored, reads as the epoch when never set, and is not disturbed by the other two settings |
| FileManagerUtility.BackupRoundTrip | SDPodTest/Framework/Communication/FileManagerUtility.swift:15-24 | the backup flag reads back what was stored |
| FileManagerUtility.LastIndexOf | SDPodTest/Framework/Communication/FileManagerUtility.swift:294-298 | the result is the last occurrence of the character, or -1 when there is none |
| FileManagerUtility.UppercasedNormal | SDPodTest/Framework/Communication/FileManagerUtility.swift:203 | upper-casing leaves no lower-case ASCII letter, keeps every other character, and is idempotent |
| FileManagerUtility.IsZipNameCharacterised | SDPodTest/Framework/Communication/FileManagerUtility.swift:203 | a name counts as an archive iff it ends in a dot plus "zip" in any case, with something before the dot |
| FileManagerUtility.MoveFileWithUrl | SDPodTest/Framework/Communication/FileManagerUtility.swift:128-149 | an existing target that cannot be removed gives false and changes nothing; otherwise the result is the move's success, with the cleared target and moved subtree as the new state; the result is `MoveSucceeds` of the old tree; nothing outside the two paths changes |
| FileManagerUtility.StagedRenameSucceeds | SDPodTest/Framework/Communication/FileManagerUtility.swift:259-268 | after a successful unzip, the rename onto the canonical name succeeds exactly when neither the extracted file nor the canonical path is locked and the version's folder is not a plain file |
| FileManagerUtility.CreateImagesFolder | SDPodTest/Framework/Communication/FileManagerUtility.swift:60-71 | the final images folder is created only when missing; failure is ignored; nothing outside it changes |
| FileManagerUtility.CreateTempFolders | SDPodTest/Framework/Communication/FileManagerUtility.swift:165-194 | the images folder is attempted only when the version folder exists or was created; false iff a creation failed; on success both folders exist; the staged database is untouched; the resulting tree is `TempFolders` of the old one |
| FileManagerUtility.Extracted | SDPodTest/Framework/Communication/FileManagerUtility.swift:264 | a successful extraction leaves the archive's entry with its content in the target folder |
| FileManagerUtility.RemovalOutcome | SDPodTest/Framework/Communication/FileManagerUtility.swift:271-273 | a removal attempt keeps every entry outside the removed path, and leaves that path not removable |
| FileManagerUtility.InstallExtractedDatabase | SDPodTest/Framework/Communication/FileManagerUtility.swift:257-274 | an unzip failure gives false; after a successful unzip the result is exactly whether `moveFileWithURL` can rename the extracted file onto the cleared canonical path; on success the canonical database path holds the extracted file and the archive can no longer be removed (it is gone unless locked) |
| FileManagerUtility.RemoveTempFolder | SDPodTest/Framework/Communication/FileManagerUtility.swift:108-119 | the whole temp area is removed when permitted; otherwise nothing changes |
| FileManagerUtility.MoveImageFolderToTempFolder | SDPodTest/Framework/Communication/FileManagerUtility.swift:121-126 | only the installed images folder and the fresh temp path are affected |
| FileManagerUtility.SweepZipStep | SDPodTest/Framework/Communication/FileManagerUtility.swift:203-206 | removing one more listed archive extends the sweep by that name |
| FileManagerUtility.SweepOtherStep | SDPodTest/Framework/Communication/FileManagerUtility.swift:203 | a name that is not an archive leaves the sweep unchanged |
| FileManagerUtility.SweepComplete | SDPodTest/Framework/Communication/FileManagerUtility.swift:200-207 | once every listed name is handled, exactly the archives are gone |
| FileManagerUtility.DeleteDownloadedZipFiles | SDPodTest/Framework/Communication/FileManagerUtility.swift:196-211 | a listing failure changes nothing; only archive entries are ever removed; when none is locked, exactly the archives in the images folder are removed |
| FileManagerUtility.DatabasePathApart | SDPodTest/Framework/Communication/FileManagerUtility.swift:213-254 | the installed database lies outside every other path a commit moves, creates or removes |
| FileManagerUtility.TempImagesPathApart | SDPodTest/Framework/Communication/FileManagerUtility.swift:215-231 | the staged images folder lies outside what a commit touches before listing it |
| FileManagerUtility.MoveTempFilesToFinalDirectory | SDPodTest/Framework/Communication/FileManagerUtility.swift:213-255 | false only when a delta sync cannot list the staged images; a full sync is always true; when the moves are permitted, the installed database is the staged one |
| DownloadItems.ImageLocationIsCheckedPath | SDPodTest/Framework/Communication/DownloadItem.swift:46-50 | an image item is staged exactly where `tempImageExists` looks |
| DownloadItems.DownloadItem.constructor | SDPodTest/Framework/Communication/DownloadItem.swift:39-51 | a new item is Active with no retries, error or task; its name is the URL's last path component; its location is temp/v for the database and temp/v/images otherwise |
| DownloadItems.DownloadItem.SaveItem | SDPodTest/Framework/Communication/DownloadItem.swift:53-62 | the file is moved only when nothing exists at the location; an existing entry is left untouched |
| DownloadItems.DownloadItem.IsValid | SDPodTest/Framework/Communication/DownloadItem.swift:64-74 | valid iff not an image or it decodes; an invalid image is removed from its location |
| DownloadItems.ProcessSQLiteZipFile | SDPodTest/Framework/Communication/FileManagerUtility.swift:257-283 | an unzip failure gives false and the item keeps its name and location; after a successful unzip the result is exactly whether the rename onto the canonical name succeeds; on success the item points at the canonical database, which holds the extracted file; the item's status and error are unchanged |
| CatalogDatabase.CatalogDBManager.constructor | SDPodTest/Framework/Database/CatalogDBManager.swift:17-24 | the manager starts with no database and no handle |
| CatalogDatabase.CatalogDBManager.CreateDatabase | SDPodTest/Framework/Database/CatalogDBManager.swift:26-50 | opens the path for the type; the state becomes the type on success and no database on failure; a handle is returned either way |
| CatalogDatabase.CatalogDBManager.CloseDatabase | SDPodTest/Framework/Database/CatalogDBManager.swift:52-57 | afterwards no database is open and nothing else changed, so closing twice is closing once |
| CatalogDatabase.CatalogDBManager.OpenDataBase | SDPodTest/Framework/Database/CatalogDBManager.swift:59-66 | the type already open returns its handle untouched, whatever the version; any other type closes and then creates |
| ProductImages.SelectedExactly | SDPodTest/Framework/Database/ProductImagesAPI.swift:24-37 | a record is read iff its hash is present and longer than one character; never more records than rows |
| ProductImages.SelectedAppend | SDPodTest/Framework/Database/ProductImagesAPI.swift:31-37 | reading rows in two parts gives the two results concatenated |
| ProductImages.DeltaUrlsAppend | SDPodTest/Framework/Database/ProductImagesAPI.swift:14-18 | the diff distributes over concatenated candidates, so order is kept |
| ProductImages.DeltaUrlsSingle | SDPodTest/Framework/Database/ProductImagesAPI.swift:15-16 | one candidate contributes its URL exactly when its hash matches no baseline hash |
| ProductImages.DeltaUrlsMembership | SDPodTest/Framework/Database/ProductImagesAPI.swift:14-18 | a URL is in the result iff some candidate with that URL has a hash that is absent from the baseline, whatever the baseline's URLs |
| ProductImages.DeltaUrlsLength | SDPodTest/Framework/Database/ProductImagesAPI.swift:14-18 | the result has one entry per new candidate, with no de-duplication, and at most as many as there are candidates |
| ProductImages.DeltaUrlsEmptyBaseline | SDPodTest/Framework/Database/ProductImagesAPI.swift:10-20 | an empty baseline yields every candidate URL; no candidates yield nothing |
| ProductImages.ContainsHash | SDPodTest/Framework/Database/ProductImagesAPI.swift:15 | the search loop finds a record iff one has the hash |
| ProductImages.DiffByHash | SDPodTest/Framework/Database/ProductImagesAPI.swift:10-20 | the loop builds exactly `DeltaUrls` of the two lists |
| ProductImages.QueryImages | SDPodTest/Framework/Database/ProductImagesAPI.swift:25-37 | the row loop builds exactly the qualifying records in row order |
| ProductImages.GetSkuImageUrlAndHash | SDPodTest/Framework/Database/ProductImagesAPI.swift:23-46 | opens the database through the cache; yields the qualifying rows when it is open on that type and nothing otherwise |
| ProductImages.GetDeltaImageUrls | SDPodTest/Framework/Database/ProductImagesAPI.swift:9-21 | reads staged then installed images, leaving the installed database open (or none), and returns the diff of what each read yielded |
| Sessions.RetryStep | SDPodTest/Framework/Communication/URLSessionManager.swift:80-106 | below the budget, exactly one more retry with unchanged status and a new task, resumed iff the error carries resume data; at the budget, Error with no task, `ImageSaveError` iff an image and `DownloadError` otherwise; the count stays within the budget |
| Sessions.FailuresBelowBudget | SDPodTest/Framework/Communication/URLSessionManager.swift:81-96 | fewer than `MaxRetryRequest` consecutive failures leave the item in flight with that many retries |
| Sessions.FailsOnLastAttempt | SDPodTest/Framework/Communication/URLSessionManager.swift:81-105 | an item reaches Error on its `MaxRetryRequest`-th consecutive failure and not before |
| Sessions.FirstWithTask | SDPodTest/Framework/Communication/URLSessionManager.swift:115 | the first item whose task matches, or -1 when none does |
| Sessions.FirstWithUrl | SDPodTest/Framework/Communication/URLSessionManager.swift:122 | the first item with the URL, or -1 when none has it |
| Sessions.NothingMatchesEmptyBatch | SDPodTest/Framework/Communication/URLSessionManager.swift:45-46 | after `cancel` no callback affects any item |
| Sessions.URLSessionManager.AddDownloadTask | SDPodTest/Framework/Communication/URLSessionManager.swift:71-78 | the item is InProgress with its start time and a fresh task from its URL; retries and error are unchanged |
| Sessions.URLSessionManager.Download | SDPodTest/Framework/Communication/URLSessionManager.swift:37-43 | the held batch is exactly the given items, and every one is InProgress with a task for its URL |
| Sessions.URLSessionManager.Cancel | SDPodTest/Framework/Communication/URLSessionManager.swift:45-53 | the held batch is empty |
| Sessions.URLSessionManager.RetryDownloadTask | SDPodTest/Framework/Communication/URLSessionManager.swift:80-106 | the item's transfer state becomes `RetryOutcome`; it is reported iff retries are exhausted |
| Sessions.URLSessionManager.DidCompleteWithError | SDPodTest/Framework/Communication/URLSessionManager.swift:111-119 | a missing or cancellation error, or an unknown task, changes nothing; otherwise only the first matching item goes through the retry policy, and it is reported exactly when given up |
| Sessions.URLSessionManager.DidFinishDownloading | SDPodTest/Framework/Communication/URLSessionManager.swift:121-135 | only the first item with the URL is affected: its file is saved to the item's location unless something is there, and an undecodable image is then removed again (`Received`); a valid file completes the item with no task and its end time, and it is reported; an invalid image takes the retry path without an error |
| Catalog.FailureNotice | SDPodTest/Framework/Communication/CatalogManager.swift:173-175 | the failure callback's code identifies the error kind, and its domain is non-empty |
| Catalog.PlanConcat | SDPodTest/Framework/Communication/CatalogManager.swift:68-83 | the plan of a concatenated batch is the concatenation of the plans |
| Catalog.ParsedUrlsExactly | SDPodTest/Framework/Communication/CatalogManager.swift:76-77 | a URL is kept iff some text parses to it |
| Catalog.ParsedUrlsAllParse | SDPodTest/Framework/Communication/CatalogManager.swift:76-77 | when every text parses, one URL per text is kept, in order |
| Catalog.ArchivesExactly | SDPodTest/Framework/Communication/CatalogManager.swift:76-82 | one image-archive item per URL, with the same URL, in order |
| Catalog.InitialBatchShape | SDPodTest/Framework/Communication/CatalogManager.swift:67-83 | the database item comes first iff its URL parses and no database is staged; a full sync then has one archive item per parseable image URL, in order; a delta sync has no image item; the size is N + (db ? 1 : 0) |
| Catalog.DeltaBatchExactly | SDPodTest/Framework/Communication/CatalogManager.swift:111-120 | a delta item exists exactly for each parseable URL whose image is not yet staged; all are images; no more items than URLs |
| Catalog.OutstandingBounds | SDPodTest/Framework/Communication/CatalogManager.swift:184-188 | the outstanding count is at most the size, zero iff nothing is pending, and the size iff everything is |
| Catalog.StatusesPointwise | SDPodTest/Framework/Communication/CatalogManager.swift:184 | the status list has each item's status at the item's position |
| Catalog.CountOutstanding | SDPodTest/Framework/Communication/CatalogManager.swift:184-188 | the counting loop yields exactly the number of pending items (Processing counts only in the first batch) |
| Catalog.ShareBounds | SDPodTest/Framework/Communication/CatalogManager.swift:192 | a completed share of a non-empty batch lies in [0, 1] and is 1 exactly for the whole batch |
| Catalog.HalfPlusShare | SDPodTest/Framework/Communication/CatalogManager.swift:207 | one half plus half a share is at most 1, at least one half when the share is not negative, and 1 exactly when nothing remains |
| Catalog.FullSyncProgress | SDPodTest/Framework/Communication/CatalogManager.swift:190-192 | full-sync progress lies in [0, 1]; it is 0 for an empty batch (the NaN guard) and 1 exactly when the batch is non-empty and nothing is pending |
| Catalog.DeltaSyncProgress | SDPodTest/Framework/Communication/CatalogManager.swift:193-212 | one half before the delta list exists and 1 for an empty list; otherwise the first batch's remaining items count too, and with the first batch done the value lies in [1/2, 1], reaching 1 exactly when no listed image is pending |
| Catalog.ProgressAfterStop | SDPodTest/Framework/Communication/CatalogManager.swift:94-103 | after a running session stops, the progress formula gives 0 for a full sync, one half before the delta list exists, and 1 after |
| Catalog.StopIdempotent | SDPodTest/Framework/Communication/CatalogManager.swift:94-103 | stopping twice is stopping once; afterwards nothing runs; an existing delta list is emptied, not forgotten |
| Catalog.RecordSync | SDPodTest/Framework/Communication/CatalogManager.swift:133-135 | a committed sync marks a backup, stores its completion time and its version, and keeps every other setting |
| Catalog.ArchiveItems | SDPodTest/Framework/Communication/CatalogManager.swift:75-83 | the image loop builds exactly the archive plan for the parseable URLs, as new Active items |
| Catalog.DeltaItems | SDPodTest/Framework/Communication/CatalogManager.swift:111-120 | the delta loop builds exactly `DeltaBatch`, as new Active items |
| Catalog.CatalogManager.constructor | SDPodTest/Framework/Communication/CatalogManager.swift:20-25 | a new manager is idle, with no batches, no delta list and no progress |
| Catalog.CatalogManager.Start | SDPodTest/Framework/Communication/CatalogManager.swift:45-92 | while a sync runs nothing changes; otherwise it announces the start and the stored progress; a non-empty batch is exactly `InitialBatch` and is handed to the coordinator as it is, after the staging folders are created as `createTempFolders` does (the images folder exists when both creations are permitted) and with the database cache, the settings and the stored progress untouched; an empty full-sync batch installs at once (the full commit cannot fail), reporting 1.0 and finished and recording the sync; an empty delta-sync batch takes the delta step |
| Catalog.CatalogManager.DispatchBatch | SDPodTest/Framework/Communication/CatalogManager.swift:84-90 | a non-empty batch goes to the coordinator with every item in flight and nothing else changed; an empty one installs (full) with the commit's callbacks and settings, or takes the delta step (delta) |
| Catalog.CatalogManager.FirstBatch | SDPodTest/Framework/Communication/CatalogManager.swift:61-83 | the batch built is exactly `InitialBatch`, as new Active items |
| Catalog.CatalogManager.Stop | SDPodTest/Framework/Communication/CatalogManager.swift:94-103 | the run state becomes `AfterStop` of the old one; a running session also empties the coordinator's batch |
| Catalog.CatalogManager.ContinueDeltaSync | SDPodTest/Framework/Communication/CatalogManager.swift:106-128 | the delta list is set before diffing; a non-empty `DeltaBatch` of the hash diff is downloaded as it is; an empty one installs |
| Catalog.CatalogManager.CompleteSync | SDPodTest/Framework/Communication/CatalogManager.swift:130-146 | the sync stops either way; the commit succeeds iff full or the staged images can be listed; success records the sync, closes the database and reports 1.0 then finished; failure reports `TempToFinalLocationError` |
| Catalog.CatalogManager.RaiseError | SDPodTest/Framework/Communication/CatalogManager.swift:166-177 | `ImageSaveError` changes nothing; any other error stops the sync and reports that error |
| Catalog.CatalogManager.DownloadCounts | SDPodTest/Framework/Communication/CatalogManager.swift:179-221 | the counting loops compute exactly `CountsOf` of the two lists' statuses |
| Catalog.CatalogManager.ReportProgressAndAdvance | SDPodTest/Framework/Communication/CatalogManager.swift:244-261 | the recomputed progress is stored and reported first; when the sync runs and nothing remains, it installs if full or past the delta step, and otherwise takes the delta step |
| Catalog.CatalogManager.AdvanceItem | SDPodTest/Framework/Communication/CatalogManager.swift:227-242 | a completed image archive moves to Processing and stops there; a processed one moves to Completed; a completed database archive is unpacked, with failure ignored, and when the rename succeeds the item is named and located as the canonical staged database, which holds the extracted file; an item's error is raised, and a fatal one leaves progress at its stopped value |
| Catalog.CatalogManager.DownloadItemCompleted | SDPodTest/Framework/Communication/CatalogManager.swift:226-262 | a completed image archive waits without any callback; otherwise, unless the item carries a fatal error, the first callback is progress: the unchanged value for a completed database or image and for an item without a fatal error; after a fatal error the failure comes first and is followed by the stopped sync's progress |
| Catalog.CatalogManager.ZipProcessed | SDPodTest/Framework/Communication/CatalogManager.swift:155-164 | a failed unpack marks the item Error and fails the sync with `UnzipError`; a successful one completes the item, and its first callback is progress |
| Catalog.CatalogManager.SessionDidBecomeInvalidWithError | SDPodTest/Framework/Communication/CatalogManager.swift:264-266 | an invalid session stops the sync and reports `SessionInvalid` |
| Catalog.CatalogManager.OnSessionInvalid | SDPodTest/Framework/Communication/URLSessionManager.swift:137-142 | the session manager passes the invalidation on only when it carries an error: without one nothing happens; with one the sync stops and fails with `SessionInvalid` |
| Catalog.CatalogManager.OnTaskCompleted | SDPodTest/Framework/Communication/URLSessionManager.swift:111-119 | ignored errors and unknown tasks change nothing; the matched item is untouched by an ignored error; a retried item leaves the orchestrator as it was; a given-up image first reports progress; any other given-up item fails a running sync with `DownloadError` |
| Catalog.CatalogManager.OnDownloadFinished | SDPodTest/Framework/Communication/URLSessionManager.swift:121-135 | an image archive waits to be unpacked; a database archive or decodable image completes and the first callback is progress; an undecodable image with retries left is retried and leaves the orchestrator as it was; one out of retries becomes Error with `ImageSaveError` and the first callback is progress; for the waiting archive and the retried image, the file system is the saved file, removed again for the image |

## Left out

- The URLSession machinery is not modelled: the background configuration, the `URLSessionDownloadTask` objects, cancelling through `getAllTasks`, `urlSessionDidFinishEvents` and the `backgroundSessionCompletionHandler` hand-over. It is foreign transport. A task is an identifier, and the transport's callbacks are method calls.
- `DispatchQueue` hops are treated as synchronous. The clean-up after a commit runs before `moveTempFilesToFinalDirectory` returns, and the callbacks are logged in issue order. Threading is not logic. One visible effect: the source's progress block reads `percentageComplete` only when the main queue runs it, so after a commit, where `stop` has already reset it to 0, the delegate is told 0; the model logs the value computed at the call.
- Concurrency is not modelled. The background unpacking of an image archive is the separate event `ZipProcessed`, and nothing constrains how it interleaves with other events.
- SSZipArchive is an oracle. Extracting an image archive writes no files in the model, only its success bit. Extracting the database archive writes a single file.
- The sqlite3 C calls are given as row lists and an open outcome. A failed prepare is not separate from a failed open: both yield no rows.
- `UIImage` decoding is the `decodes` verdict.
- `UserDefaults` is the map `settings` and a `Date` is whole seconds. `syncCompletedToday` and `Date.sameDay` (calendar semantics) are not modelled.
- `version()` only returns the constant library version, and it is not modelled.
- `Float` arithmetic is modelled on reals. The NaN guard is the empty-batch case.
- `URL(string:)` is the `parse` oracle, and `lastPathComponent` is the last path element.
- `pathExtension` is the text after the last dot that is not the first character. Upper-casing covers ASCII letters only.
- `getSharedLocationPath` is the `root` parameter, and its force-unwrap is not modelled. Neither are the force-unwrapped delegate and handle, nor the force-unwrapped `sqlite3_column_text(statement, 0)` at ProductImagesAPI.swift line 33: a row whose image URL is NULL crashes the source, while a modelled row always has a URL.
- Dead code is omitted: the self-comparison at CatalogManager.swift line 50, the unused `remainingDownloadItems` count and the unused limited query.
- NSLog output is not modelled.
- CatalogDatabase.CatalogDBManager.OpenDataBase: requires a handle when the requested type is already open. This matters only for asking for no database before any was opened, where the source unwraps a missing handle.
- FileSystemModel.FileSystem.ContentsOfDirectory: the order of the listing is left open, as the platform does not fix it.
- FileManagerUtility.MoveImageFolderToTempFolder: states only that nothing outside the two paths changes, not where the images end up.
- FileManagerUtility.InstallExtractedDatabase: states the database's content only when the archive lies outside the canonical database path, and not the rest of the file system.
- DownloadItems.ProcessSQLiteZipFile: states the file-system outcome only when the archive lies outside the canonical database path.
- FileManagerUtility.MoveTempFilesToFinalDirectory: states the return value and the database install. It does not state where each image ends up or the clean-up's result.
- Catalog.CatalogManager.CompleteSync: states the database install but not the images folder after the commit.
- Catalog.CatalogManager.Start: for an empty first batch of a delta sync, states only that the delta step was taken, not its callbacks. For an empty first batch, it does not state the file system after the staging folders and the commit or the delta step.
- Catalog.CatalogManager.ReportProgressAndAdvance: when it takes the delta step, states only that the step was taken. `ContinueDeltaSync` states the rest.
- Catalog.CatalogManager.DownloadItemCompleted: after an unpacked image archive it states that the first callback is progress, but not its value. That value is `CountsOf` the batches after the status change, and only `ReportProgressAndAdvance` states it. What follows the report is also stated by `ReportProgressAndAdvance`.
- Catalog.CatalogManager.OnTaskCompleted: states the given-up outcomes up to the first new callback.
- Catalog.CatalogManager.OnDownloadFinished: likewise, up to the first new callback, whose value it does not state; for an image out of retries it states its Error status, its `ImageSaveError` and that the first callback is progress. For a completed database archive or image, and for an image given up, it does not state the file system, which the unpacking or the commit that may follow changes further.
- Catalog.CatalogManager.ZipProcessed: on success, states that the first callback is progress, not its value.
- Sessions.URLSessionManager.Download: states that task identifiers only grow. It does not state that they are distinct.
