/** The upload controller's state as a value, and what each of its operations does to it.

    Backend calls are not performed: each reply the controller awaits is an input
    (a missing reply stands for a rejected request), and every request the controller
    issues, with the clearing of the file input, is appended to `trace`. */
module UploadSpec {
  import opened Wrappers
  import opened ChunkPlan
  import opened Transmission

  /** A selected browser file: only its name and size matter here. */
  datatype File = File(name: string, size: nat)

  /** A session as the backend lists it. */
  datatype Session = Session(id: string, fileName: string, totalSize: nat)

  /** A session waiting for the user to reselect its file, with the chunk list fetched for it. */
  datatype PendingResume = PendingResume(session: Session, uploadedChunks: seq<int>)

  /** The reply to the session-initialisation request; "" stands for a missing field.
      The controller takes `uploadId`, falling back to `id` when it is missing. */
  datatype InitReply = InitReply(uploadId: string, id: string)

  function SessionIdOf(reply: InitReply): string
  {
    if reply.uploadId != "" then reply.uploadId else reply.id
  }

  /** The backend's answers during one run of the transmission loop: the uploaded-chunk
      list if it is asked for (None: that request is rejected), the chunk index whose
      send is rejected, if any, and whether the completion request succeeds. */
  datatype Replies = Replies(uploadedChunks: Option<seq<int>>, rejectPutAt: Option<nat>, completeOk: bool)

  /** One line of the user-visible log (chunk numbers are 0-based here). */
  datatype LogEntry =
    | FileReselected
    | Paused
    | ResumingUpload
    | ChunkSkipped(index: nat)
    | ChunkUploaded(index: nat, total: nat)
    | UploadComplete
    | SessionLoaded(fileName: string)
    | ResumingWithFile(fileName: string)
    | ReselectNeeded(fileName: string)

  /** An outward effect: a backend request, or the reset of the page's file input. */
  datatype Effect =
    | InitSession(fileName: string, totalSize: nat)
    | QueryUploaded(id: string)
    | PutChunk(id: string, index: nat, start: nat, end: nat)
    | CompleteSession(id: string)
    | ClearFileInput

  /** Every field of the controller that the core reads or writes. */
  datatype State = State(
    file: Option<File>,
    progress: nat,
    log: seq<LogEntry>,
    uploadId: Option<string>,
    paused: bool,
    currentChunkIndex: nat,
    activeResumeSession: Option<PendingResume>,
    trace: seq<Effect>)

  const Initial := State(None, 0, [], None, false, 0, None, [])

  // ---------------------------------------------------------------------------
  // Pieces of a run of the transmission loop

  /** The send request for chunk i of a file of `size` bytes: its index and byte range. */
  function Put(id: string, size: nat, i: nat): Effect
  {
    PutChunk(id, i, ChunkStart(i, ChunkSize), ChunkEnd(i, size, ChunkSize))
  }

  /** The send requests of the loop's iterations over [a, b): one per index that the
      uploaded-chunk list does not hold. */
  function SendTrace(id: string, size: nat, a: nat, b: nat, uploaded: seq<int>): seq<Effect>
    decreases b
  {
    if b <= a then []
    else SendTrace(id, size, a, b - 1, uploaded) + (if (b - 1) in uploaded then [] else [Put(id, size, b - 1)])
  }

  /** The log lines of the loop's iterations over [a, b). */
  function LoopLog(a: nat, b: nat, uploaded: seq<int>, total: nat): seq<LogEntry>
    decreases b
  {
    if b <= a then []
    else LoopLog(a, b - 1, uploaded, total)
         + [if (b - 1) in uploaded then ChunkSkipped(b - 1) else ChunkUploaded(b - 1, total)]
  }

  /** The pause handler's log line, when the pause was handled at the head where the loop stopped. */
  function PauseLog(stop: Stop, pauseAt: Option<nat>): seq<LogEntry>
  {
    if stop.PausedAt? && pauseAt == Some(stop.index) then [Paused] else []
  }

  /** The send request of the chunk whose request was rejected, if the loop stopped there. */
  function RejectedSend(stop: Stop, id: string, size: nat): seq<Effect>
  {
    if stop.RejectedAt? then [Put(id, size, stop.index)] else []
  }

  /** The uploaded-chunk list the loop works with: the known list when it is non-empty,
      otherwise the backend's answer. */
  function ChunkList(known: seq<int>, r: Replies): Option<seq<int>>
  {
    if |known| > 0 then Some(known) else r.uploadedChunks
  }

  /** The requests issued before the loop: a query for the uploaded chunks unless a
      non-empty list is known. */
  function QueryFor(id: string, known: seq<int>): seq<Effect>
  {
    if |known| > 0 then [] else [QueryUploaded(id)]
  }

  // ---------------------------------------------------------------------------
  // The operations

  /** The state after the iterations over [from, i): the send requests of the chunks not
      yet uploaded, their log lines and the progress they wrote. */
  function WalkSpec(s: State, id: string, f: File, from: nat, i: nat, uploaded: seq<int>): State
  {
    var total := TotalChunks(f.size, ChunkSize);
    s.(progress := ProgressAt(from, i, uploaded, total, s.progress),
       log := s.log + LoopLog(from, i, uploaded, total),
       trace := s.trace + SendTrace(id, f.size, from, i, uploaded))
  }

  /** The for loop of uploadChunks, over [from, total) with the given uploaded-chunk list,
      ending as LoopStop says: where it stops, a handled pause leaves its log line, the flag
      and the index; a rejected send leaves its request. */
  function TransmitSpec(s: State, id: string, f: File, from: nat, uploaded: seq<int>,
                        r: Replies, pauseAt: Option<nat>): State
  {
    var total := TotalChunks(f.size, ChunkSize);
    var stop := LoopStop(from, total, uploaded, s.paused, pauseAt, r.rejectPutAt);
    var w := WalkSpec(s, id, f, from, StopIndex(stop, total), uploaded);
    w.(log := w.log + PauseLog(stop, pauseAt),
       paused := s.paused || stop.PausedAt?,
       currentChunkIndex := if stop.PausedAt? then stop.index else s.currentChunkIndex,
       trace := w.trace + RejectedSend(stop, id, f.size))
  }

  /** TransmitSpec where the loop stops, one lemma per way of stopping. */
  lemma TransmitStopsPaused(s: State, id: string, f: File, from: nat, uploaded: seq<int>,
                            r: Replies, pauseAt: Option<nat>, i: nat)
    requires LoopStop(from, TotalChunks(f.size, ChunkSize), uploaded, s.paused, pauseAt, r.rejectPutAt) == PausedAt(i)
    ensures TransmitSpec(s, id, f, from, uploaded, r, pauseAt)
         == WalkSpec(s, id, f, from, i, uploaded).(log := WalkSpec(s, id, f, from, i, uploaded).log
                                                          + (if pauseAt == Some(i) then [Paused] else []),
                                                   paused := true, currentChunkIndex := i)
  {
  }

  lemma TransmitStopsRejected(s: State, id: string, f: File, from: nat, uploaded: seq<int>,
                              r: Replies, pauseAt: Option<nat>, i: nat)
    requires LoopStop(from, TotalChunks(f.size, ChunkSize), uploaded, s.paused, pauseAt, r.rejectPutAt) == RejectedAt(i)
    ensures TransmitSpec(s, id, f, from, uploaded, r, pauseAt)
         == WalkSpec(s, id, f, from, i, uploaded).(trace := WalkSpec(s, id, f, from, i, uploaded).trace
                                                            + [Put(id, f.size, i)])
  {
  }

  lemma TransmitStopsExhausted(s: State, id: string, f: File, from: nat, uploaded: seq<int>,
                               r: Replies, pauseAt: Option<nat>, i: nat)
    requires LoopStop(from, TotalChunks(f.size, ChunkSize), uploaded, s.paused, pauseAt, r.rejectPutAt) == Exhausted
    requires i == from || i == TotalChunks(f.size, ChunkSize)
    requires TotalChunks(f.size, ChunkSize) <= i
    ensures TransmitSpec(s, id, f, from, uploaded, r, pauseAt) == WalkSpec(s, id, f, from, i, uploaded)
  {
  }

  /** What follows the loop once it ran out of indices: the completion request and, when it
      succeeds, the reset of the session fields. */
  function CompleteSpec(s: State, id: string, completeOk: bool): State
  {
    var s1 := s.(trace := s.trace + [CompleteSession(id)]);
    if completeOk then s1.(log := s1.log + [UploadComplete], uploadId := None, currentChunkIndex := 0)
    else s1
  }

  /** uploadChunks(id, f, from, known): fetch the uploaded-chunk list unless a non-empty one
      is known, run the loop, and complete the session if the loop ran out of indices. */
  function UploadChunksSpec(s: State, id: string, f: File, from: nat, known: seq<int>,
                            r: Replies, pauseAt: Option<nat>): State
  {
    var s1 := s.(trace := s.trace + QueryFor(id, known));
    match ChunkList(known, r)
    case None => s1
    case Some(uploaded) =>
      var s2 := TransmitSpec(s1, id, f, from, uploaded, r, pauseAt);
      if LoopStop(from, TotalChunks(f.size, ChunkSize), uploaded, s.paused, pauseAt, r.rejectPutAt) == Exhausted
      then CompleteSpec(s2, id, r.completeOk)
      else s2
  }

  /** UploadChunksSpec once the uploaded-chunk list is known: the loop's state, completed
      when the loop ran out of indices. */
  lemma UploadChunksWithList(s: State, id: string, f: File, from: nat, known: seq<int>,
                             r: Replies, pauseAt: Option<nat>, uploaded: seq<int>)
    requires ChunkList(known, r) == Some(uploaded)
    ensures var s2 := TransmitSpec(s.(trace := s.trace + QueryFor(id, known)), id, f, from, uploaded, r, pauseAt);
      UploadChunksSpec(s, id, f, from, known, r, pauseAt)
        == if LoopStop(from, TotalChunks(f.size, ChunkSize), uploaded, s.paused, pauseAt, r.rejectPutAt) == Exhausted
           then CompleteSpec(s2, id, r.completeOk) else s2
  {
  }

  /** pauseUpload(): raise the pause flag. */
  function PauseSpec(s: State): State
  {
    s.(paused := true, log := s.log + [Paused])
  }

  /** The session id and file that resumeUpload needs (an empty id is falsy). */
  predicate CanResume(s: State)
  {
    s.uploadId.Some? && s.uploadId.value != "" && s.file.Some?
  }

  /** resumeUpload(): clear the pause flag and, with a session and a file, re-enter the
      loop at the recorded index, asking the backend for the uploaded chunks. */
  function ResumeUploadSpec(s: State, r: Replies, pauseAt: Option<nat>): State
  {
    var s1 := s.(paused := false);
    if CanResume(s1) then
      UploadChunksSpec(s1.(log := s1.log + [ResumingUpload]), s1.uploadId.value, s1.file.value,
                       s1.currentChunkIndex, [], r, pauseAt)
    else s1
  }

  /** startUpload(): with a file, reset progress, flag and log, open a session and
      transmit from chunk 0, asking the backend for the uploaded chunks. */
  function StartUploadSpec(s: State, init: Option<InitReply>, r: Replies, pauseAt: Option<nat>): State
  {
    match s.file
    case None => s
    case Some(f) =>
      var s1 := s.(progress := 0, paused := false, log := [], trace := s.trace + [InitSession(f.name, f.size)]);
      match init
      case None => s1
      case Some(reply) =>
        var id := SessionIdOf(reply);
        UploadChunksSpec(s1.(uploadId := Some(id), currentChunkIndex := 0), id, f, 0, [], r, pauseAt)
  }

  /** The selected file is the one the pending session waits for. */
  predicate Reselects(s: State, selected: Option<File>)
  {
    selected.Some? && s.activeResumeSession.Some?
    && selected.value.name == s.activeResumeSession.value.session.fileName
  }

  /** onFileSelected(): take the new file; if it is the one a pending session waits for,
      adopt that session and transmit from chunk 0 with the stored chunk list. */
  function OnFileSelectedSpec(s: State, selected: Option<File>, r: Replies, pauseAt: Option<nat>): State
  {
    if Reselects(s, selected) then
      var p := s.activeResumeSession.value;
      UploadChunksSpec(s.(file := selected, log := s.log + [FileReselected],
                          uploadId := Some(p.session.id), activeResumeSession := None),
                       p.session.id, selected.value, 0, p.uploadedChunks, r, pauseAt)
    else s.(file := selected)
  }

  /** resumeOldSession(session): adopt the session, fetch its uploaded chunks, show the
      progress they amount to; transmit from chunk 0 if the selected file has the session's
      file name, otherwise park the session until that file is reselected. */
  function ResumeOldSessionSpec(s: State, session: Session, loaded: Option<seq<int>>,
                                r: Replies, pauseAt: Option<nat>): State
    requires session.totalSize > 0
  {
    var s1 := s.(uploadId := Some(session.id), currentChunkIndex := 0,
                 trace := s.trace + [QueryUploaded(session.id)]);
    match loaded
    case None => s1
    case Some(uploaded) =>
      var s2 := s1.(progress := Percent(|uploaded|, TotalChunks(session.totalSize, ChunkSize)),
                    log := s1.log + [SessionLoaded(session.fileName)]);
      if s.file.Some? && s.file.value.name == session.fileName then
        UploadChunksSpec(s2.(log := s2.log + [ResumingWithFile(s.file.value.name)]),
                         session.id, s.file.value, 0, uploaded, r, pauseAt)
      else
        s2.(log := s2.log + [ReselectNeeded(session.fileName)],
            activeResumeSession := Some(PendingResume(session, uploaded)),
            trace := s2.trace + [ClearFileInput])
  }
}
