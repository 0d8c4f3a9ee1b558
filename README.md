# Upload bookkeeping of the drop-zone uploader, in Dafny

The system is a browser page for uploading files. Files are dropped on a drop
zone or picked in a dialog. The drop zone checks each file's type and size,
then caps how many are taken. The page opens an upload session for the
accepted files, or appends them to the session that is already open. It then
starts one simulated upload per file and tracks the uploads in flight, which
guards retry and cancel. The upload service keeps a module-level list of
sessions and an id counter. Each session holds an ordered list of file
records and four aggregates: `totalFiles`, `totalSize`, `completedFiles` and
`uploadedSize`.

This project models that core in eight modules:

- `Results`: the `Option` and `Result` wrappers.
- `Strings`: the JavaScript string built-ins the helpers use, namely
  `lastIndexOf`, `slice`, `toLowerCase`, `>>> 0` and decimal rendering.
- `FileHelpers`: the pure helpers of `src/utils/fileHelpers.js`. These are
  extension extraction, the icon table, the image test, the early exit of the
  thumbnail generator, type and size validation, and the remaining-time text.
- `UploadModel`: records, sessions and their aggregates. It also holds each
  in-place update the service performs, as a function on a session value,
  with a lemma that the update keeps the data-model invariant `Consistent`.
- `UploadSimulator`: the chunk loop of `simulateUpload`, as a method with a
  loop.
- `UploadService`: the class `UploadStore`, whose fields `sessions` and
  `nextId` are the module-level `uploadSessions` and `currentSessionId`.
  Its methods are the service operations.
- `DropZone`: `validateFiles` as a loop method, `handleFiles`, and a class
  holding the two drag flags.
- `Home`: the class `HomePage`, which holds the open session and the
  in-flight id set over one `UploadStore`.

The model follows the code as written. These choices are deliberate:

- **Progress arithmetic is modelled as exact.** The code computes with
  double-precision floats; the model uses exact integers instead. Chunk sizes
  and uploaded amounts are kept in hundredths of a byte, so
  `Math.max(size / 100, 1024)` is modelled as the integer `max(size, 102400)`.
  The unrounded progress is modelled as reaching 100 exactly when
  `k * chunk >= 100 * size`, and `Math.round` as `(2u + size) div (2 * size)`.
  The session's `Math.round(Σ size * progress / 100)` is modelled as
  `(Σ size * progress + 50) div 100`. Where double rounding makes the code
  differ, "## Left out" says how.
- **Failure draws and delays.** The 5% failure draw is an oracle
  `failureDraw`, consulted with the index of the chunk just reported. The
  chunk that completes the file never draws. The random delays are not
  observable.
- **`retryUpload` fails after resetting.** It reaches `this.uploadFile`
  (`src/services/api/uploadService.js:136`) inside an arrow function of a
  module-level object literal, where `this` is not the service. So it resets
  the record to pending with progress 0, then throws. The model returns
  `Err(RetryDelegationFailed)` after the reset. The comment at
  `src/services/api/uploadService.js:122` calls this a retry of the failed
  upload, but no upload runs: the reset is the only effect.
- **There is no status guard.** `uploadFile` sets "uploading" whatever the
  status was. The aggregates are therefore not always in step with the
  records. `Settled` (`completedFiles` equals the success count and
  `uploadedSize` equals the recomputed sum) is not an invariant. Two
  counterexample lemmas show where it breaks. The invariant that does hold,
  `Consistent`, is kept by every operation.
- **Sessions are shallow copies.** `createUploadSession` and `getAllSessions`
  return shallow copies: the copy has its own totals but shares the record
  objects. The page's open session is therefore one of three things:
  - `NoSession`;
  - `Live(id)`, the store's own object, as handed out by a progress callback
    or by `cancelUpload`;
  - `Copy(snapshot)`.

  Records in a copy are read through the store by record id, since they are
  the same objects. Appending to a `Copy` extends only the page's copy. The
  store never sees those records, and their uploads stop at "File not found".
  Appending to a `Live` session extends the store's own session.
- **The in-flight set is stale.** The upload loop of `handleFilesSelected`
  reads the `uploadingFiles` set captured when the handler began, not the
  updates made during the loop.
- **Uploads are split in two.** `uploadFile` is modelled as a synchronous
  start (the lookups and the status change) followed by a continuation
  (thumbnail, chunk loop, success or failure). This is the granularity at
  which the page interleaves uploads. The continuation looks the session and
  record up again. If the record was cancelled meanwhile, the orphaned record
  object is not modelled. The session's `uploadedSize` and `completedFiles`
  are still recomputed from the records that remain, as the captured session
  object would be.

## Model

| member | source | states |
|---|---|---|
| FileHelpers.GetFileExtension | src/utils/fileHelpers.js:21-23 | the extension is a tail of the name, lower-cased character by character, so never longer than the name |
| FileHelpers.ExtensionStart | src/utils/fileHelpers.js:22 | `(lastIndexOf(".") - 1 >>> 0) + 2` is 2^32 when there is no dot, 2^32 + 1 for a dot at index 0, and one past the last dot otherwise |
| FileHelpers.ExtensionIsTextAfterLastDot | src/utils/fileHelpers.js:21-23 | the extension is the lower-cased text after the last dot; it is empty when there is no dot or when the only dot is at index 0 |
| FileHelpers.NoDotAfterLower | src/utils/fileHelpers.js:21-23 | an extension never contains a dot |
| FileHelpers.TrailingDotHasNoExtension | src/utils/fileHelpers.js:21-23 | a name ending in a dot has the empty extension |
| FileHelpers.ExtensionOfJoinedName | src/utils/fileHelpers.js:21-23 | round trip: `base + "." + ext` with a dot-free `ext` and a non-empty `base` has the extension `ext` lower-cased |
| FileHelpers.GetFileIcon | src/utils/fileHelpers.js:25-90 | an extension with a table entry gives that entry's icon; any other extension falls back to the default entry, "File" |
| FileHelpers.ImageIconTable | src/utils/fileHelpers.js:25-96 | the icon table and the image list agree: an extension is in the image list exactly when its table entry is "Image" |
| FileHelpers.IsImageFile | src/utils/fileHelpers.js:92-96 | `imageExtensions.includes(extension)`: membership of the extension in the seven image extensions; ImageIffImageIcon relates it to the icon table |
| FileHelpers.ImageIffImageIcon | src/utils/fileHelpers.js:25-96 | a name is an image exactly when its extension is one of the seven image extensions, and exactly when its icon is "Image" |
| FileHelpers.GenerateThumbnail | src/utils/fileHelpers.js:98-103 | the thumbnail is null exactly when the file is not an image |
| FileHelpers.SomeExtensionPattern | src/utils/fileHelpers.js:146-148 | true exactly when some ".x" pattern equals the extension after lower-casing |
| FileHelpers.SomeMimePattern | src/utils/fileHelpers.js:150-152 | true exactly when some pattern containing "/" matches the MIME type |
| FileHelpers.ValidateFileType | src/utils/fileHelpers.js:140-160 | with no allowed types every file is valid; otherwise valid exactly when an extension or MIME pattern matches; the error is null exactly when valid and otherwise names the extension |
| FileHelpers.ExtensionPatternIgnoresCase | src/utils/fileHelpers.js:146-148 | an extension pattern matches whatever the case of its letters |
| FileHelpers.ValidateFileSize | src/utils/fileHelpers.js:162-170 | valid exactly when size ≤ maxSizeMB · 1024 · 1024; the error is null exactly when valid and otherwise names the limit |
| FileHelpers.SizeLimitIsInclusive | src/utils/fileHelpers.js:162-170 | a file of exactly the limit is accepted and one byte more is rejected |
| FileHelpers.Ceil | src/utils/fileHelpers.js:180 | `Math.ceil`: the least integer at or above its argument |
| FileHelpers.CeilDiv | src/utils/fileHelpers.js:185-188 | integer ceiling division: the least q with q · d ≥ n |
| FileHelpers.EstimateRemaining | src/utils/fileHelpers.js:176-190 | "Calculating..." exactly when the speed or the uploaded bytes are zero; otherwise seconds below 60, minutes in 1..60, or at least one hour |
| FileHelpers.CalculateETA | src/utils/fileHelpers.js:176-177 | a zero speed or zero uploaded bytes gives "Calculating..." |
| FileHelpers.EtaBands | src/utils/fileHelpers.js:179-190 | with s the ceiling of remaining / speed: seconds when s < 60, ceil(s/60) minutes (in 1..60) when s < 3600, and ceil(s/3600) hours otherwise |
| UploadModel.UploadedSize | src/services/api/uploadService.js:99-102 | `Math.round` of the bytes uploaded: the nearest integer to Σ size · progress / 100, halves rounding up |
| UploadModel.NewSession | src/services/api/uploadService.js:51-71 | the new session carries the id and one record per file, keeps the invariant and has aggregates that agree with its records |
| UploadModel.MarkUploading | src/services/api/uploadService.js:86 | the target record is its old value with status "uploading" and every other field kept; other records and every aggregate stay |
| UploadModel.SetThumbnail | src/services/api/uploadService.js:90-91 | the target record is its old value with the thumbnail stored and every other field kept; other records and every aggregate stay |
| UploadModel.ApplyProgress | src/services/api/uploadService.js:94-102 | the target record is its old value with the event's progress and speed and every other field kept; other records and the totals stay; `uploadedSize` is recomputed over all records |
| UploadModel.MarkSuccess | src/services/api/uploadService.js:107-111 | the target record is its old value with status "success", the url and speed 0, keeping its progress, thumbnail and any earlier error message; other records stay; `completedFiles` becomes the number of successful records |
| UploadModel.MarkFailure | src/services/api/uploadService.js:114-117 | the target record is its old value with status "error", the message and speed 0, keeping its url and thumbnail; other records and every aggregate stay |
| UploadModel.ResetForRetry | src/services/api/uploadService.js:130-134 | the target record is its old value with status "pending", progress 0, no error and speed 0, keeping an earlier url and thumbnail; other records and every aggregate stay |
| UploadModel.RemoveRecord | src/services/api/uploadService.js:149-159 | the target is removed and the others keep their order; all four aggregates agree with the remaining records |
| UploadModel.CountSuccessAtMostLength | src/services/api/uploadService.js:111 | the success count is at most the number of records |
| UploadModel.WeightedProgressBounds | src/services/api/uploadService.js:99-101 | with progress in 0..100, Σ size · progress lies in 0..100 · Σ size |
| UploadModel.UploadedWithinTotal | src/services/api/uploadService.js:99-102 | the rounded `uploadedSize` lies in 0..Σ size |
| UploadModel.AggregatesAfterUpdate | src/services/api/uploadService.js:94-111 | replacing one record changes the size sum, success count and weighted progress by exactly that record's difference |
| UploadModel.AggregatesAfterRemoval | src/services/api/uploadService.js:150-159 | removing one record takes exactly its share out of each sum |
| UploadModel.NewRecords | src/services/api/uploadService.js:58-70 | one record per selected file |
| UploadModel.NewRecordsAt | src/services/api/uploadService.js:58-70 | record i is built from file i and the i-th generated id |
| UploadModel.NewRecordsAggregates | src/services/api/uploadService.js:53-70 | fresh records sum to the selected bytes, count no success and carry progress 0 |
| UploadModel.NewSessionShape | src/services/api/uploadService.js:51-71 | a new session has one pending record per file, in order, with progress 0, speed 0 and no url, thumbnail or error; totalFiles = number of files, totalSize = Σ size, completedFiles = uploadedSize = 0; it is Consistent and Settled |
| UploadModel.MarkUploadingKeepsConsistent | src/services/api/uploadService.js:86 | setting "uploading" leaves the record otherwise as it was and every other record unchanged, and keeps the invariant |
| UploadModel.SetThumbnailKeepsConsistent | src/services/api/uploadService.js:90-91 | the record gets the thumbnail with every other field kept, other records are unchanged, and the invariant (and a settled session's settledness) holds |
| UploadModel.ApplyProgressKeepsConsistent | src/services/api/uploadService.js:94-104 | a progress callback sets the target's progress and speed and `uploadedSize` = round(Σ size · progress / 100); other records and totals are unchanged; the invariant holds |
| UploadModel.LastCallbackWins | src/services/api/uploadService.js:94-104 | after a non-empty run of callbacks the record shows the last one's progress and speed, and `uploadedSize` is recomputed |
| UploadModel.ProgressOverwrites | src/services/api/uploadService.js:95-102 | a callback overwrites the previous one's progress and speed |
| UploadModel.ApplyProgressAllKeepsId | src/services/api/uploadService.js:94-104 | callbacks keep the session id and every record id |
| UploadModel.ApplyProgressAllKeepsConsistent | src/services/api/uploadService.js:94-104 | a run of callbacks with progress in 0..100 keeps the invariant and leaves other records untouched |
| UploadModel.MarkSuccessKeepsConsistent | src/services/api/uploadService.js:107-111 | success sets status, url and speed 0 on the target only, `completedFiles` becomes the success count, and the invariant holds |
| UploadModel.MarkFailureKeepsConsistent | src/services/api/uploadService.js:114-117 | failure sets status "error", the message and speed 0 on the target only, and the invariant holds |
| UploadModel.ResetForRetryKeepsConsistent | src/services/api/uploadService.js:130-134 | the retry reset sets progress 0, "pending", no error and speed 0 on the target only, and the invariant holds |
| UploadModel.RemoveRecordKeepsConsistent | src/services/api/uploadService.js:149-159 | cancel removes exactly the target, keeps the rest in order, and makes totalFiles, totalSize, completedFiles and uploadedSize agree with the remaining records |
| UploadModel.RetryLeavesUploadedSizeStale | src/services/api/uploadService.js:130-134 | for example: a concrete settled session with a half-uploaded failed record is no longer settled after the retry reset |
| UploadModel.RestartLeavesCompletedFilesStale | src/services/api/uploadService.js:86 | for example: on a concrete settled session, with no status guard, restarting a successful record leaves `completedFiles` counting it |
| UploadSimulator.ChunkHundredths | src/services/api/uploadService.js:11 | `Math.max(size / 100, 1024)` in hundredths: the chunk is the larger of 1 KiB and one hundredth of the file |
| UploadSimulator.ChunkCount | src/services/api/uploadService.js:11-27 | between 1 and 100 chunks |
| UploadSimulator.ChunkCountIsFirstCompletion | src/services/api/uploadService.js:11-27 | chunk k reaches 100% unrounded exactly when k ≥ ChunkCount, so at most 100 chunks and no earlier completion |
| UploadSimulator.EventInRange | src/services/api/uploadService.js:17-25 | every callback reports progress in 0..100 and uploadedBytes ≤ totalSize |
| UploadSimulator.EventMonotone | src/services/api/uploadService.js:17-25 | progress and uploadedBytes never decrease from one chunk to a later one |
| UploadSimulator.LastEventIsComplete | src/services/api/uploadService.js:17-30 | the completing chunk reports progress 100 and the whole size |
| UploadSimulator.SimulateUpload | src/services/api/uploadService.js:8-44 | the callbacks are the successive chunk events; it resolves with the mock URL after the completing chunk, and rejects with the network error exactly when a draw fails on an earlier chunk; the completing chunk never fails |
| UploadService.FindSession | src/services/api/uploadService.js:79 | the first session with the id, or none when no session has it |
| UploadService.FindRecord | src/services/api/uploadService.js:82 | the first record with the id, or none when no record has it |
| UploadService.Locate | src/services/api/uploadService.js:79-83 | a located pair indexes an existing session and record; every failure is "Session not found" or "File not found" |
| UploadService.LocateErrors | src/services/api/uploadService.js:79-83 | "Session not found" exactly when no session has the id; "File not found" exactly when a session with the id is found and it has no record with the file id; otherwise the located session and record carry the ids asked for |
| UploadService.MaxId | src/services/api/uploadService.js:5 | the maximum of the seed ids is one of them and bounds all |
| UploadService.Completed | src/services/api/uploadService.js:88-119 | the continuation of an upload keeps the session id and the number of records; its effect on the records is given by the two lemmas below |
| UploadService.CompletedMissingKeepsConsistent | src/services/api/uploadService.js:94-111 | when the record is gone by the time the upload continues, no record changes and the invariant holds |
| UploadService.CompletedFoundKeepsConsistent | src/services/api/uploadService.js:88-119 | the continuation of an upload into record j: on success the record is "success" with the url and speed 0 and `completedFiles` is the success count; on failure it is "error" with the message and speed 0; no other record changes; the invariant holds; after at least one callback a success leaves the session Settled |
| UploadService.CompletedKeepsConsistent | src/services/api/uploadService.js:88-119 | whether or not the record still exists, the continuation keeps the invariant, the session id and every record id, and changes no record with another id |
| UploadService.ReplayCallbacks | src/services/api/uploadService.js:94-105 | running the progress callback for each event in turn gives exactly the session `ApplyProgressAll` describes, whose properties are the UploadModel lemmas above |
| UploadService.UploadFileOutcome | src/services/api/uploadService.js:86-119 | a whole upload: the thumbnail and last progress are stored; on success the record has the url and speed 0 and the session is Settled; on failure it has the message and speed 0 and `uploadedSize` is recomputed; other records unchanged |
| UploadService.UploadStore.constructor | src/services/api/uploadService.js:4-5 | the store is the seed and the counter is one above the largest seed id |
| UploadService.UploadStore.CreateUploadSession | src/services/api/uploadService.js:48-75 | the new session goes to the front under the counter's value, which exceeds every earlier id; the counter moves on by one |
| UploadService.UploadStore.BeginUpload | src/services/api/uploadService.js:78-86 | a missing session or record throws and changes nothing; otherwise only that record's status becomes "uploading" |
| UploadService.UploadStore.CompleteUpload | src/services/api/uploadService.js:88-119 | the callbacks are the simulator's; the session becomes its `Completed` form; success exactly when no draw fails |
| UploadService.UploadStore.UploadFile | src/services/api/uploadService.js:78-120 | lookup errors change nothing; otherwise start then continuation; success exactly when no draw fails, returning the store's record |
| UploadService.UploadStore.RetryUpload | src/services/api/uploadService.js:123-137 | lookup errors change nothing; otherwise the record is reset and the call fails |
| UploadService.UploadStore.CancelUpload | src/services/api/uploadService.js:140-162 | lookup errors change nothing; otherwise the record is removed, the aggregates are recomputed and the store's session is returned |
| UploadService.UploadStore.GetAllSessions | src/services/api/uploadService.js:165-168 | the sessions in store order |
| UploadService.UploadStore.GetSessionById | src/services/api/uploadService.js:171-175 | the first session with the id, or null when there is none |
| UploadService.UploadStore.DeleteSession | src/services/api/uploadService.js:178-185 | removes exactly the first session with the id and returns true; throws "Session not found" and changes nothing otherwise |
| UploadService.CreatedSessionIsFound | src/services/api/uploadService.js:52-73 | round trip: looking up a just-created session's id finds it, and no earlier id finds it |
| DropZone.Verdict | src/components/organisms/DropZone.jsx:25-41 | a file passes exactly when the type check (skipped with no accepted types) and the size check pass; a file failing both gets only the type error |
| DropZone.Capped | src/components/organisms/DropZone.jsx:45-50 | at most maxFiles files, a prefix of the passing ones |
| DropZone.ValidateFiles | src/components/organisms/DropZone.jsx:20-51 | validFiles are the passing files in input order, cut to maxFiles; errors are one per failing file then a single "Too many files" error when the cap bites |
| DropZone.EveryFileAccountedFor | src/components/organisms/DropZone.jsx:24-42 | the passing files and the per-file errors together number exactly the input files: each file lands in one or the other, once |
| DropZone.ErrorCount | src/components/organisms/DropZone.jsx:24-50 | the number of errors is the failing files plus one when capped; the surplus gets no per-file error |
| DropZone.PassingAppend | src/components/organisms/DropZone.jsx:24-42 | the passing files of a concatenation are those of each part, in order |
| DropZone.PerFileErrorsAppend | src/components/organisms/DropZone.jsx:24-42 | the per-file errors of a concatenation are those of each part, in order |
| DropZone.PassingMembers | src/components/organisms/DropZone.jsx:24-42 | every accepted file is an input file that passes |
| DropZone.NoTypesMeansSizeOnly | src/components/organisms/DropZone.jsx:26-39 | with no accepted types only the size decides |
| DropZone.HandleFiles | src/components/organisms/DropZone.jsx:53-68 | nothing happens when disabled or given no files; the selection callback gets only a non-empty list of at most maxFiles |
| DropZone.DropZone.constructor | src/components/organisms/DropZone.jsx:16-17 | both flags start off |
| DropZone.DropZone.DragEnter | src/components/organisms/DropZone.jsx:70-77 | both flags on unless disabled, when nothing changes |
| DropZone.DropZone.DragLeave | src/components/organisms/DropZone.jsx:79-89 | both flags off when the pointer left the zone and not disabled; nothing changes otherwise |
| DropZone.DropZone.DragOver | src/components/organisms/DropZone.jsx:91-97 | the highlight on unless disabled |
| DropZone.DropZone.Drop | src/components/organisms/DropZone.jsx:99-110 | both flags off even when disabled; then the files go through `handleFiles` unless disabled |
| Home.AppendFiles | src/components/pages/Home.jsx:43-60 | the existing records stay first and in order, one record per selected file follows, and `completedFiles` and `uploadedSize` are untouched |
| Home.AppendFilesShape | src/components/pages/Home.jsx:43-60 | existing records stay first and in order, one pending, empty record per file follows; totalFiles and totalSize grow by the count and bytes; completedFiles and uploadedSize are untouched |
| Home.AppendFilesKeepsConsistent | src/components/pages/Home.jsx:58-60 | appending keeps the invariant, and keeps a settled session settled |
| Home.Refresh | src/services/api/uploadService.js:167 | a copy's records keep their ids; each shows the store's first record of the same id, or itself when the store has none |
| Home.PickRecord | src/components/pages/Home.jsx:66 | the first pending record with the file's name, or none exactly when there is no such record |
| Home.StartOne | src/components/pages/Home.jsx:66-69 | one selected file starts at most one upload and keeps the number of sessions |
| Home.StartUploads | src/components/pages/Home.jsx:65-71 | the selected files in order start at most one upload each and keep the number of sessions |
| Home.StartOneFacts | src/components/pages/Home.jsx:65-70 | a file starts an upload exactly when a pending record of its name exists whose id was not in flight, and into the first such record; it gets past the lookups exactly when the store has that record |
| Home.StartUploadsFacts | src/components/pages/Home.jsx:65-71 | the loop keeps ids and the invariant; no upload starts for an id in flight; every upload is into the open session for a selected file; an upload into a record only the page's copy has never gets past "File not found" |
| Home.HomePage.constructor | src/components/pages/Home.jsx:10-11 | no session is open and nothing is in flight |
| Home.HomePage.Mount | src/components/pages/Home.jsx:16-28 | the first (most recent) session becomes the open one when there is any |
| Home.HomePage.HandleFilesSelected | src/components/pages/Home.jsx:32-79 | creates a session when none is open, otherwise appends to the open one; then the upload loop; the ids started join the in-flight set |
| Home.HomePage.RunUploadLoop | src/components/pages/Home.jsx:65-71 | the loop's effect on the store and the uploads it starts are `StartUploads` of the selected files |
| Home.HomePage.StartUpload | src/components/pages/Home.jsx:66-69 | one file's step is `StartOne` and its id joins the in-flight set |
| Home.HomePage.SettleUpload | src/components/pages/Home.jsx:81-95 | whether the upload succeeds or fails, its id leaves the in-flight set; the store's session becomes the open one |
| Home.HomePage.HandleRetryFile | src/components/pages/Home.jsx:97-127 | no-op with no open session, an unknown id or an id in flight; otherwise the service's reset-then-fail, with the id in flight only for the call |
| Home.HomePage.HandleCancelFile | src/components/pages/Home.jsx:129-146 | no-op with no open session; on success the store's session becomes the open one and the id leaves the in-flight set; on failure nothing changes |

## Left out

- UploadSimulator.SimulateUpload, UploadSimulator.ChunkCount and UploadModel.UploadedSize use exact arithmetic, not doubles. In the code the float sum of the chunks can fall just short of the size: for 102401 bytes the chunk is 1024.01 and 100 chunks stay below the size. Such a transfer takes one chunk more than `ChunkCount`, and its 100th callback, already showing 100%, still draws for failure. The float sum `Σ size * (progress / 100)` can also round to one less than the exact value: `Math.round(50 * (29 / 100))` is 14, not 15. `EstimateRemaining` and `CalculateETA` likewise compute over exact reals, not doubles.
- `formatFileSize` and `formatUploadSpeed` are not modelled, because they are floating-point formatting with `Math.log` and `toFixed`.
- The image work of `generateThumbnail` is not modelled: `FileReader`, `Image`, canvas scaling and JPEG encoding. An image's thumbnail is an opaque string parameter. An image that never loads, so that the promise never settles, is not modelled.
- `setTimeout` delays are left out, along with the interleaving of concurrent uploads and a cancel racing an in-flight chunk. Each operation is atomic, and an upload is its start plus its continuation.
- `Math.random` is left out. The failure draw is the oracle `failureDraw`.
- `Date.now` is a parameter `now`. One value is used for every record created by one call, where the page and the service read the clock once per record.
- `generateFileId` and the page's id expression are left out. Record ids are a parameter `ids`, and colliding ids are not excluded. The lookups take the first match, as `find` does.
- `encodeURIComponent` is an opaque function parameter. Percent-encoding per section 2.1 of RFC 3986 is not modelled.
- The MIME pattern test is an uninterpreted predicate `regexMatch`. The unanchored `RegExp` built with the first `*` replaced is not modelled.
- `toLowerCase` maps only ASCII letters.
- The icon table is a chain of tests, one per icon group, with the literal's "default" key as its own entry. JavaScript prototype keys such as "constructor" are not modelled.
- `copyFileUrl` (clipboard and `execCommand`) is left out, as are all toasts and console messages.
- The props the home page passes to the drop zone are not modelled as a value: no type restriction, 100 MB, 20 files, and `disabled` while loading. `DropZoneProps` is an input to the drop-zone members.
- The page's `loading` and `error` flags are left out. The drop zone's `disabled` is an input. `handleFilesSelected`'s catch branch is left out, since no modelled step throws synchronously.
- `handleClick`, the hidden file input and `handleFileInputChange` are left out. The last of these feeds the same `HandleFiles`.
- The JSX of both components is left out, along with every presentational component.
- The contents of the seed file `uploadSessions.json` are left out. The store starts from any non-empty list of consistent sessions.
- UploadService.UploadStore.constructor: requires a non-empty seed, because `Math.max()` of no ids is -Infinity. It also requires consistent seed sessions.
- UploadService.UploadStore.CompleteUpload: a record cancelled during its upload is not mutated further. In the code the orphaned object still receives the callbacks and the outcome.
- UploadService.UploadStore.RetryUpload: it takes no file and no progress callback, because the delegation that would use them never runs.
- Home.HomePage.SettleUpload: the store's session becomes the open one only if the session still exists. The page never deletes sessions, so this does not arise in the modelled code.
- FileHelpers.ExtensionIsTextAfterLastDot: stated for names of at most 2^32 characters, the range where `>>> 0` does not wrap a real index; JavaScript strings never reach it.
- DropZone.HandleFiles: a null file list is not modelled, because a Dafny sequence cannot be null.
- `UploadQueue`, `UploadStats`, `FileUploadCard` and `ProgressBar` are status filters, float percentages and labels, and are not modelled.
