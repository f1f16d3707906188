# Upload store — a Dafny model

This project models the upload store of a small web application in which a
user drops several files to upload. The store, `src/store/uploads.ts`, keeps a
registry `uploads: Map<string, Upload>` with one record per file. It drives each
record through an attempt: reset, image compression, transfer with byte
progress, then `success`, `canceled` or `error`. It lets the user cancel or
retry an upload. A selector, `usePendingUploads`, folds the registry into a
"pending" flag and one global percentage.

Modules:

- `UploadRecord` (`upload_record.dfy`): the `Upload` record, `Partial<Upload>`
  patches and the object spread `{...upload, ...data}` (`Merge`). It also holds
  the abort controller as a class with an `aborted` flag.
- `UploadLifecycle` (`upload_lifecycle.dfy`): each registry write of
  `processUpload` as an event with a fixed patch, and the composition of events
  on one record. Lemmas cover one attempt, consecutive attempts and overlapping
  attempts.
- `UploadProgress` (`upload_progress.dfy`): the selector of
  `usePendingUploads`. This is the `.some` test, the `.reduce` fold, and the
  rounded, capped percentage with JavaScript's `NaN` for `0 / 0`.
- `UploadStore` (`upload_store.dfy`): a class `Store` that owns the registry.
  The registry is a `map` plus the insertion order a JavaScript `Map` keeps.
  `processUpload` is split at its `await` points into methods that are called
  one at a time: `StartAttempt`, `OnCompressed`, `OnProgress`, `OnSuccess` and
  `OnFailure`. The store also has `AddUploads`, `RetryUpload` and
  `CancelUpload`.

Behaviour of the code that the model keeps as written:

- Events address the upload id, not the attempt. `retryUpload` does not abort
  the attempt in flight, so a superseded attempt can still overwrite the
  record. The record can then show `error` together with the url of an earlier
  success (`OverlappingRetryBreaksCoherence`). "A url is present exactly on
  success" holds only while attempts do not overlap (`NonOverlappingCoherent`).
- `cancelUpload` only aborts the controller the record holds. The `canceled`
  status is written later, by the attempt's own `catch`.
- `compressedSizeBytes` is tested for truthiness, so a compressed size of 0
  counts as no compressed size (`ZeroCompressedIsAbsent`).
- The percentage is taken over every record, whatever its status. With two
  uploads in progress, one compressed to 100 bytes with 50 sent and one of 200
  bytes not yet compressed, the result is round(5000 / 300) = 17, not 50
  (`TwoPendingExample`).
- The code does not guard a total of 0. The selector then yields `NaN`, which
  the model keeps as the value `NaN` rather than treating it as 0 %.
- `addUploads` calls `processUpload` synchronously. So when `addUploads`
  returns, each new record already holds its own fresh controller. The record
  without a controller exists only between the insertion and that call.

## Model

| member | source | states |
|---|---|---|
| UploadRecord.Merge | src/store/uploads.ts:38-43 | every property present in the partial object overrides the record's; every absent property keeps the record's value |
| UploadRecord.MergeNoChange | src/store/uploads.ts:38-43 | spreading the empty partial object leaves the record unchanged |
| UploadRecord.MergeIdempotent | src/store/uploads.ts:38-43 | applying the same partial update twice equals applying it once |
| UploadRecord.MergeThen | src/store/uploads.ts:38-43 | two successive updates equal one update with the spread of both partial objects |
| UploadRecord.NewUpload | src/store/uploads.ts:113-119 | the inserted record has the file's name and size, status `progress`, 0 bytes sent, and no compressed size, url or controller |
| UploadLifecycle.EventPatch | src/store/uploads.ts:55-91 | no event writes name, file or original size; only the start writes the controller; only start and success write the url; only start and settles write the status; only success writes `success`; only start and compression write the compressed size; only start and progress write the bytes sent |
| UploadLifecycle.StartResets | src/store/uploads.ts:53-61 | starting an attempt sets 0 bytes sent, no url, no compressed size, status `progress` and the new controller, and keeps the identity fields |
| UploadLifecycle.StartOnNewUpload | src/store/uploads.ts:113-125 | the first attempt of a newly inserted record changes only its controller |
| UploadLifecycle.SuccessSettles | src/store/uploads.ts:83 | a success writes status `success` and the returned url, and nothing else |
| UploadLifecycle.FailureSettles | src/store/uploads.ts:85-92 | a failure ends `canceled` exactly for a cancellation and `error` otherwise, never `success`, and changes nothing but the status |
| UploadLifecycle.RunAppend | src/store/uploads.ts:31-45 | delivering one sequence of updates and then another equals delivering their concatenation |
| UploadLifecycle.MidwayKeeps | src/store/uploads.ts:71-78 | compression and progress updates never change status, url, controller or identity fields |
| UploadLifecycle.UrlProvenance | src/store/uploads.ts:55-83 | a url in the record was either there before or returned by a successful transfer among the events |
| UploadLifecycle.AttemptOutcome | src/store/uploads.ts:47-93 | a lone attempt leaves its own controller and, by outcome, `progress` with no url, `success` with the returned url, or `canceled`/`error` as the failure says with no url |
| UploadLifecycle.NonOverlappingCoherent | src/store/uploads.ts:47-93 | when each attempt settles before the next starts, a url is present exactly when the status is `success` |
| UploadLifecycle.OverlappingRetryBreaksCoherence | src/store/uploads.ts:105-107 | after a retry during an attempt, the old attempt's success lands while the new controller is installed, and the new attempt's failure then leaves `error` with a url |
| UploadProgress.Reduce | src/store/uploads.ts:149-163 | the left fold adds the sum of the effective totals and the sum of the effective uploaded bytes to the accumulator |
| UploadProgress.RoundedPercent | src/store/uploads.ts:165 | the result is the integer nearest to 100·uploaded/total, with halves rounded up |
| UploadProgress.RoundedAgainstHundred | src/store/uploads.ts:165 | a ratio of at most one rounds to at most 100; a ratio of at least one rounds to at least 100 |
| UploadProgress.GlobalPercentage | src/store/uploads.ts:164-167 | the result is `NaN` exactly for 0/0; otherwise at most 100 and at most the rounded value, equal to 100 or the rounded value, equal to the rounded value when uploaded ≤ total, and equal to 100 when uploaded ≥ total and the pair is not 0/0 |
| UploadProgress.NoTotalNoUploaded | src/store/uploads.ts:152-156 | a zero total forces zero uploaded bytes, because uploaded bytes count only for a truthy compressed size |
| UploadProgress.PendingUploads | src/store/uploads.ts:138-172 | the flag holds exactly when some record is `progress`; with none pending the result is 100; otherwise it is the capped rounded ratio of the sums, `NaN` exactly when the total is 0, and never above 100 |
| UploadProgress.SumsAppend | src/store/uploads.ts:149-163 | both sums split over concatenation |
| UploadProgress.SumsPermutation | src/store/uploads.ts:149-163 | both sums are equal for any two orderings of the same records |
| UploadProgress.OrderIrrelevant | src/store/uploads.ts:139-172 | the selector's result is the same for any order of the registry's values |
| UploadProgress.ZeroCompressedIsAbsent | src/store/uploads.ts:152-156 | replacing a compressed size of 0 by no compressed size leaves the selector's result unchanged |
| UploadProgress.UploadedCoversTotal | src/store/uploads.ts:149-163 | when every record is compressed and fully sent, uploaded bytes are at least the total, and the total is positive for a non-empty registry |
| UploadProgress.AllSentIsComplete | src/store/uploads.ts:164-167 | when every record is compressed and fully sent, the percentage is 100 |
| UploadProgress.TwoPendingExample | src/store/uploads.ts:146-167 | records compressed to 100 with 50 sent and uncompressed at 200 give pending and 17 % |
| UploadStore.Updated | src/store/uploads.ts:31-45 | an unknown id leaves the registry unchanged; otherwise the keys stay the same, that entry becomes the spread of the patch over it, and every other entry is unchanged |
| UploadStore.InsertedKeys | src/store/uploads.ts:109-127 | after insertion the keys are exactly the old keys and the new ids |
| UploadStore.InsertedEntry | src/store/uploads.ts:109-127 | each new id holds the new record for its file, with its own attempt's controller |
| UploadStore.InsertedKeepsOld | src/store/uploads.ts:121-123 | records already in the registry keep their values |
| UploadStore.InsertedSize | src/store/uploads.ts:109-127 | with fresh, distinct ids the registry grows by exactly the number of files |
| UploadStore.InsertedPending | src/store/uploads.ts:109-127 | after adding at least one file the last value is in `progress` and the selector reports pending |
| UploadStore.Store.constructor | src/store/uploads.ts:130 | the registry starts empty |
| UploadStore.Store.UpdatedUpload | src/store/uploads.ts:31-45 | the registry becomes `Updated` of the old registry, in the same order |
| UploadStore.Store.StartAttempt | src/store/uploads.ts:47-61 | an unknown id changes nothing; otherwise a fresh, unaborted controller is created and the entry is reset with it; the previous controller is not aborted |
| UploadStore.Store.OnCompressed | src/store/uploads.ts:64-71 | the registry records the compressed size for the id |
| UploadStore.Store.OnProgress | src/store/uploads.ts:76-78 | the registry records the reported bytes for the id |
| UploadStore.Store.OnSuccess | src/store/uploads.ts:73-83 | the registry records `success` and the url for the id |
| UploadStore.Store.OnFailure | src/store/uploads.ts:85-92 | the registry records `canceled` or `error` for the id |
| UploadStore.Store.CancelUpload | src/store/uploads.ts:95-103 | the registry is unchanged; the controller the entry holds, if any, is aborted; with no such controller nothing changes |
| UploadStore.Store.RetryUpload | src/store/uploads.ts:105-107 | a retry starts a new attempt exactly as `StartAttempt` does, without aborting the one in flight |
| UploadStore.Store.AddUpload | src/store/uploads.ts:110-126 | one loop turn inserts the record under the new id, appends the id, and installs a fresh controller |
| UploadStore.Store.AddNext | src/store/uploads.ts:110-126 | one loop turn extends the inserted registry by the next file, with a controller different from all earlier ones |
| UploadStore.Store.AddUploads | src/store/uploads.ts:109-127 | the ids are appended in order; the registry is the old one with one new record per file; every controller is fresh, unaborted and distinct; with at least one file the selector reports pending |

## Left out

- Image compression (`compressImage`, its bounds of 1000 px and quality 0.8) is not modelled. Only its result size arrives, through `OnCompressed`. A compression error arrives as `OnFailure`.
- The transfer (`uploadFileToStorage`) is not modelled. Its progress reports, url and failure kind arrive as parameters of the event methods. As written, it takes no progress callback and no abort signal, so a real run never produces progress or a cancellation from it.
- `crypto.randomUUID()` becomes the `ids` parameter of `AddUploads`, with a precondition that the ids are distinct and not yet in the registry.
- Scheduling is not modelled: which task resumes when, and the promises themselves. Each `await` point is a method that can be called at any time for any id. This matches the code, whose writes address only the id.
- The zustand store, the immer middleware, `enableMapSet` and the `useShallow` subscription are not modelled. The registry is a plain field that is read as a snapshot.
- Floating point is not modelled. `Math.round` becomes the integer formula (200·uploaded + total) / (2·total). Sizes are unbounded naturals, so precision loss for huge sizes is out of scope.
- The file's contents are not modelled. Only its name and size are.
- The widget components (`upload-widget.tsx`, `upload-widget-minimized-button.tsx`) are not modelled. They are presentation only.
- UploadStore.Store.CancelUpload: "nothing changes" for an unknown id or an entry without a controller is stated only through its empty `modifies` frame, not by a separate `ensures`.
