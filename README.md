# Resumable chunked upload controller

This project models the `UploadComponent` of an Angular front end. The component uploads one file to a backend in 100 MiB chunks, and it can pause, resume, and reconcile a previously started upload session with a newly selected file. The project then proves what the component promises.

The component is a small sequential state machine. It works over seven fields: `file`, `progress`, `log`, `uploadId`, `paused`, `currentChunkIndex` and `activeResumeSession`.

- `chunk_plan.dfy` (module `ChunkPlan`) holds the pure arithmetic: the number of chunks, each chunk's byte range, and the progress percentage.
- `transmission.dfy` (module `Transmission`) describes the `for` loop of `uploadChunks` on values:
  - `ToSend` gives the chunk indices sent over a stretch of the walk;
  - `LoopStop` gives where the walk ends, which is running out of indices, a pause seen at a loop head, or a rejected send;
  - `ProgressAt` gives the progress the walk leaves behind.
- `upload_spec.dfy` (module `UploadSpec`) holds the controller's state as a value (`State`) and one function per operation saying what the operation does to the state. Backend requests and the reset of the page's file input are appended to a `trace` of effects. Backend replies are inputs:
  - `Replies` holds the uploaded-chunk list (`None` means that request is rejected), a chunk whose send is rejected, and whether the completion request succeeds;
  - `InitReply` is the reply to the session-initialisation request.
- `upload_component.dfy` (module `Upload`) is the class `UploadComponent` with the source's fields and methods. Each method changes the object exactly as its `UploadSpec` function says. `UploadChunks` runs the transmission loop in `TransmitChunks`, a `while` loop whose invariants tie each loop head to `SendTrace` (the requests sent so far), `LoopLog` (the log lines so far), `ProgressAt` and `LoopStop`. Which chunk indices `SendTrace` sends is given by `ToSend`, through `UploadProperties.SendTraceIndices`.
- `upload_properties.dfy` (module `UploadProperties`) proves the controller's promises about those functions:
  - which chunks are sent, in what order, and with which byte ranges;
  - when the backend is asked for the uploaded chunks;
  - what a pause, a rejected request and a completion leave behind;
  - that a pause followed by a resume sends each missing chunk exactly once;
  - how an old session is reconciled with the selected file.
- `upload_scenarios.dfy` (module `UploadScenarios`) works through a 250 MiB upload whose first two chunks are already on the backend, and two behaviours of the source as written that a user may not expect:
  - after `resumeOldSession` parks a session because another file is selected, that file stays selected and the session's id stays adopted, so a resume click sends the other file's chunks into the old session (`WrongFileResumedIntoOldSession`);
  - resuming an old session first shows the share of chunks already on the backend, and the loop then overwrites it with the value for the last chunk it sends, so progress can fall, from 66 to 33 for chunks 1 and 2 of 3 on the backend, and the upload completes below 100 (`ResumedProgressShowsListedShare`, `ResumedProgressDrops`).

A user's pause click is the input `pauseAt`. It names the loop head before which the click's handler (`pauseUpload`) runs. The loop checks the flag at every head, so the click is seen there. Chunk numbers in the log are 0-based, where the source prints `i + 1`.

## Model

| member | source | states |
|---|---|---|
| ChunkPlan.TotalChunks | src/app/upload/upload.component.ts:111 | the chunk count n is the ceiling of size / c: n chunks cover the file, n - 1 do not, and n is 0 exactly for an empty file |
| ChunkPlan.ChunkEnd | src/app/upload/upload.component.ts:131 | a chunk ends at the end of the file or one chunk size after its start, whichever comes first |
| ChunkPlan.ChunksContiguous | src/app/upload/upload.component.ts:130-131 | each chunk below the count is non-empty and inside the file; consecutive chunks meet; the last ends at the file's end |
| ChunkPlan.ChunksCoverFile | src/app/upload/upload.component.ts:130-131 | every byte of the file lies in exactly one chunk, number byte / chunk size; no chunk holds a byte past the end |
| ChunkPlan.EmptyFileHasNoChunks | src/app/upload/upload.component.ts:111 | an empty file has zero chunks |
| ChunkPlan.PercentAfterChunk | src/app/upload/upload.component.ts:144 | the value written after chunk i is at most 100; it is 100 exactly when i is the last chunk; it is at least 1 once a hundredth of the chunks is done |
| ChunkPlan.PercentMonotone | src/app/upload/upload.component.ts:144 | more chunks done never gives a smaller percentage |
| Transmission.ToSendMembers | src/app/upload/upload.component.ts:119-128 | a walk over [a, b) sends an index exactly when it lies in [a, b) and is not in the uploaded list |
| Transmission.ToSendIncreasing | src/app/upload/upload.component.ts:119 | the sent indices are strictly increasing, so none is sent twice, and they lie in [a, b) |
| Transmission.ToSendSplit | src/app/upload/upload.component.ts:119-128 | walking [a, k) and then [k, b) sends exactly what walking [a, b) sends |
| Transmission.ToSendAllUploaded | src/app/upload/upload.component.ts:125-128 | when every index of the stretch is already uploaded, nothing is sent |
| Transmission.ToSendDisjoint | src/app/upload/upload.component.ts:119-123 | a walk stopped at k and a walk resumed at k share no index, whatever lists they use |
| Transmission.LoopStopIsFirstHalt | src/app/upload/upload.component.ts:119-142 | the walk ends at the first halting head: it runs out of indices exactly when no head halts; a pause or a rejection at k means no earlier head halted |
| Transmission.NoHaltRunsToEnd | src/app/upload/upload.component.ts:119-146 | with no pause and no rejected request the walk visits every index |
| Transmission.StopIndexInRange | src/app/upload/upload.component.ts:119-146 | the walk stops between its start and the chunk count |
| Transmission.ProgressWrites | src/app/upload/upload.component.ts:144 | reference formulation of the values the loop writes: one per sent chunk, each given by WriteAt; ProgressIsLastOfWrites ties the progress field to it |
| Transmission.ProgressIsLastOfWrites | src/app/upload/upload.component.ts:119-146 | the progress a walk leaves (the value the loop invariant gives the field) is the last value ProgressWrites lists for that walk, or the old value when nothing was sent |
| Transmission.ProgressWritesMonotone | src/app/upload/upload.component.ts:144 | along one walk the progress writes never decrease and never exceed 100 |
| Transmission.ProgressAtMonotone | src/app/upload/upload.component.ts:119-146 | once a chunk has been sent, the progress the loop leaves at a later loop head is never below the progress at an earlier one |
| Transmission.WriteAt | src/app/upload/upload.component.ts:144 | the write for the p-th sent chunk is Percent(index + 1, total) |
| Transmission.ProgressIsLastWrite | src/app/upload/upload.component.ts:125-144 | skipped chunks leave progress alone: after a walk it is the last chunk's write, or the old value when nothing was sent |
| Transmission.ProgressAfterWalk | src/app/upload/upload.component.ts:144 | after a full walk progress is 100 when the last chunk was sent; when the last chunk was already uploaded and something else was sent, it stays below 100 |
| Upload.UploadComponent.constructor | src/app/upload/upload.component.ts:12-21 | the fields start as the source initialises them: no file, progress 0, empty log, no session, not paused, index 0, nothing pending |
| Upload.UploadComponent.OnFileSelected | src/app/upload/upload.component.ts:49-68 | the new state is OnFileSelectedSpec of the old one |
| Upload.UploadComponent.PauseUpload | src/app/upload/upload.component.ts:70-73 | the flag is raised and one log line is added |
| Upload.UploadComponent.ResumeUpload | src/app/upload/upload.component.ts:75-81 | the new state is ResumeUploadSpec of the old one |
| Upload.UploadComponent.StartUpload | src/app/upload/upload.component.ts:83-103 | the new state is StartUploadSpec of the old one |
| Upload.UploadComponent.UploadChunks | src/app/upload/upload.component.ts:105-152 | the new state is UploadChunksSpec of the old one |
| Upload.UploadComponent.TransmitChunks | src/app/upload/upload.component.ts:119-146 | the new state is TransmitSpec of the old one, and the result says whether the loop ran out of indices, which happens exactly when LoopStop says Exhausted |
| Upload.UploadComponent.ResumeOldSession | src/app/upload/upload.component.ts:154-191 | the new state is ResumeOldSessionSpec of the old one |
| UploadProperties.SendTraceShape | src/app/upload/upload.component.ts:119-142 | a walk's requests send exactly the chunks ToSend names, one request each, with no query and no completion among them |
| UploadProperties.SendTraceIndices | src/app/upload/upload.component.ts:119-142 | the chunk indices of a walk's send requests (`http.patch`), in order, are exactly the indices from the start index up to the end that the backend has not reported |
| UploadProperties.SendTraceRanges | src/app/upload/upload.component.ts:130-142 | each send request carries the session id, an index of the stretch and that chunk's byte range |
| UploadProperties.UploadChunksExhausted | src/app/upload/upload.component.ts:119-151 | when the loop runs out of indices, uploadChunks is the walk over all remaining indices followed by the completion |
| UploadProperties.UploadChunksRunsToEnd | src/app/upload/upload.component.ts:113-151 | with no halting head, the trace gains the query (unless a list is known), the walk's requests and one completion request; log and progress are the walk's; a successful completion clears the session id and the index, a failed one leaves both |
| UploadProperties.UploadChunksSendsMissing | src/app/upload/upload.component.ts:119-148 | with no halting head, the chunks sent are exactly ToSend over [from, count) and exactly one completion request is made |
| UploadProperties.UploadChunksQueriesIffUnknown | src/app/upload/upload.component.ts:113-117 | the backend is asked for the uploaded chunks once if the known list is empty and not at all otherwise |
| UploadProperties.UploadChunksUsesKnownList | src/app/upload/upload.component.ts:105-142 | with a non-empty known list, the backend's answer to a query makes no difference to the run, and the trace gains the walk's sends over that list up to where the walk stops |
| UploadProperties.UploadChunksPausedAt | src/app/upload/upload.component.ts:120-123 | a pause seen at head k leaves index k, the flag raised and the session id untouched; only ToSend over [from, k) was sent; no completion request |
| UploadProperties.UploadChunksAlreadyPaused | src/app/upload/upload.component.ts:120-123 | with the flag already raised, the loop stops at its first index and sends nothing |
| UploadProperties.UploadChunksRejected | src/app/upload/upload.component.ts:138-142 | a rejected send aborts the loop: no completion request; index and session id unchanged; the rejected request is the last one |
| UploadProperties.UploadChunksEmptyFile | src/app/upload/upload.component.ts:111-148 | an empty file is completed at once with no send request, even when paused |
| UploadProperties.UploadChunksAllUploaded | src/app/upload/upload.component.ts:125-151 | when every chunk is already uploaded, a walk from 0 sends nothing and makes one completion request |
| UploadProperties.UploadChunksEndsAt100 | src/app/upload/upload.component.ts:144 | a full walk that sends the last chunk ends at progress 100 |
| UploadProperties.PauseClickStopsAt | src/app/upload/upload.component.ts:120-123 | a pause handled at head k of an unpaused walk without rejections stops it at k |
| UploadProperties.PauseThenResume | src/app/upload/upload.component.ts:75-81 | pausing at k and resuming sends the first run's missing chunks of [from, k), then the resumed run's missing chunks of [k, count), then one completion; no chunk is sent by both runs; with the same list both runs send what one unpaused run sends |
| UploadProperties.ResumeWithoutSession | src/app/upload/upload.component.ts:75-81 | resumeUpload without a session id or a file only lowers the flag |
| UploadProperties.StartUploadFreshRun | src/app/upload/upload.component.ts:83-103 | startUpload opens a session with the file's name and size, starts a fresh log, always asks for the uploaded chunks, sends every chunk not listed and completes |
| UploadProperties.StartUploadWithoutFile | src/app/upload/upload.component.ts:84 | startUpload without a file changes nothing |
| UploadProperties.ResumeOldSessionMatch | src/app/upload/upload.component.ts:169-176 | with the session's file selected, the session id is adopted and transmission runs from 0 with the fetched list; the backend is asked once more only when that list is empty |
| UploadProperties.UploadChunksKeepsPending | src/app/upload/upload.component.ts:105-152 | uploadChunks never changes the selected file or the pending session |
| UploadProperties.ResumeOldSessionMismatch | src/app/upload/upload.component.ts:177-190 | without the session's file nothing is sent; the session and its list are parked; the file input is cleared; id and index are set; progress shows the listed share |
| UploadProperties.OnFileSelectedOther | src/app/upload/upload.component.ts:49-57 | selecting any file other than the awaited one only records the selection |
| UploadProperties.OnFileSelectedResumes | src/app/upload/upload.component.ts:53-67 | reselecting the awaited file clears the pending session, adopts its id and transmits from 0 with the stored list; the backend is asked only when that list is empty |
| UploadProperties.MismatchThenReselect | src/app/upload/upload.component.ts:154-191 | an old session met with the wrong file waits; reselecting its file then sends its missing chunks and completes, with one query in all |
| UploadScenarios.QuarterGigabyteChunks | src/app/upload/upload.component.ts:111-131 | a 250 MiB file has three chunks, the last covering [200 MiB, 250 MiB) |
| UploadScenarios.ResumeQuarterGigabyte | src/app/upload/upload.component.ts:83-151 | a 250 MiB upload whose chunks 0 and 1 are on the backend sends only chunk 2, completes, and ends at progress 100 with the session cleared |
| UploadScenarios.WrongFileResumedIntoOldSession | src/app/upload/upload.component.ts:155-190 | after a mismatch parks the session, a resume click sends the selected (other) file's chunk 0 into the parked session's id |
| UploadScenarios.ResumedProgressShowsListedShare | src/app/upload/upload.component.ts:162-176 | a matched old session with chunks 1 and 2 of 3 listed shows 66, which a pause at the first loop head leaves in place |
| UploadScenarios.ResumedProgressDrops | src/app/upload/upload.component.ts:144-176 | the same resumption without a pause sends chunk 0 and completes with progress 33, below the 66 shown before |

## Left out

- `ngOnInit`, the constructor's `HttpClient` injection, `loadFinishedSessions`, `loadIncompleteSessions`, `downloadZip` and `download` are left out. They only list sessions or open a browser window, and nothing else in the core depends on them. `finishedUploads`, `incompleteUploads`, `downloadProgress` and src/app/app.module.ts are left out for the same reason.
- HTTP transport is left out: URLs, `FormData`, `toPromise` and the `File.slice` payload. A request is an `Effect` in the trace, and a reply is an input.
- The log's text and emojis are left out. Each line is a `LogEntry` value.
- Floating point is left out. `Math.ceil(size / C)` and `Math.floor((i + 1) / total * 100)` are modelled as exact integer arithmetic. The product of floats can fall just below an integer, for example 0.29 * 100 gives 28.999…. So the source can show one percent less than `Percent` in some cases.
- Upload.UploadComponent.ResumeOldSession: requires a session whose `totalSize` is positive. With a size of 0 the chunk count is 0, so the source divides the list's length by 0. That gives NaN as progress when the fetched list is empty and Infinity otherwise. Neither value fits the model's `nat` progress.
- Upload.UploadComponent.ResumeOldSession: clears the file input unconditionally. The source does so only when the page has an element with id `fileInput`.
- Asynchrony is modelled only as far as the pause check at the loop head. A pause click is the input `pauseAt = Some(k)`: its handler runs just before head k, whose check then stops the walk. The model also allows a click before a head that follows a skipped chunk, which the browser cannot deliver, since skips run without awaiting. The model does not capture three things about the timing:
  - The order of the log. In the browser, a click that stops the walk at head k is handled while chunk k-1's request is awaited. So `Paused` is logged before that chunk's "uploaded" line. The model logs it after that line: `[…, ChunkUploaded(k-1), Paused]` where the source gives `[…, Paused, ChunkUploaded(k-1)]`. The flag, the index, the progress and the trace agree with the source.
  - A click while the last chunk's request or the completion request is awaited. The source logs `Paused`, writes the flag, goes on to complete the session, and leaves the flag raised. That run is not one of the model's inputs; the model gives it only as a completed run followed by a separate `PauseUpload`, which logs `Paused` after the completion lines.
  - A second overlapping run of `uploadChunks`, for example a resume clicked while the first run is still awaiting.
- Upload.UploadComponent.OnFileSelected: sets `uploadId` and clears `activeResumeSession` before running the loop. The source does both once `uploadChunks` first awaits or returns, because the call is not awaited. That is at the query when the stored list is empty, at the first send otherwise, or at its return when the flag is already raised. The final state is the same, since the loop never reads these fields and writes `uploadId` only after its last await.
- ChunkPlan.PercentAfterChunk: does not claim a lower bound of 1 for every write, because that is false with more than 100 chunks. For example, Percent(1, 101) is 0. The bound is proved once at least a hundredth of the chunks is done.
- A rejected request is modelled only as the end of the run at that request. The source has no error handling, so the rejected promise ends the async function. A rejected session-initialisation request or uploaded-chunk query is modelled the same way, by a `None` reply.
