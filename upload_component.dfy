/** The upload controller as a mutable object.

    Each method changes the fields the way the matching function of UploadSpec says.
    Replies the source awaits from the backend are parameters; `pauseAt` names the loop
    head before which the user's pause click is handled. */
module Upload {
  import opened Wrappers
  import opened ChunkPlan
  import opened Transmission
  import opened UploadSpec

  class UploadComponent {
    var file: Option<File>
    var progress: nat
    var log: seq<LogEntry>
    var uploadId: Option<string>
    var paused: bool
    var currentChunkIndex: nat
    var activeResumeSession: Option<PendingResume>
    /** Requests sent to the backend and resets of the file input, oldest first. */
    ghost var trace: seq<Effect>

    ghost function Snapshot(): State
      reads this
    {
      State(file, progress, log, uploadId, paused, currentChunkIndex, activeResumeSession, trace)
    }

    constructor ()
      ensures Snapshot() == Initial
    {
      file := None;
      progress := 0;
      log := [];
      uploadId := None;
      paused := false;
      currentChunkIndex := 0;
      activeResumeSession := None;
      trace := [];
    }

    method OnFileSelected(selected: Option<File>, r: Replies, pauseAt: Option<nat>)
      modifies this
      ensures Snapshot() == OnFileSelectedSpec(old(Snapshot()), selected, r, pauseAt)
    {
      file := selected;
      if file.Some? && activeResumeSession.Some? && file.value.name == activeResumeSession.value.session.fileName {
        log := log + [FileReselected];
        var pending := activeResumeSession.value;
        // The source runs these two assignments once the loop first awaits; the loop never
        // reads them and writes uploadId only after its last await, so doing them first
        // gives the same final state.
        uploadId := Some(pending.session.id);
        activeResumeSession := None;
        UploadChunks(pending.session.id, file.value, 0, pending.uploadedChunks, r, pauseAt);
      }
    }

    method PauseUpload()
      modifies this
      ensures Snapshot() == PauseSpec(old(Snapshot()))
    {
      paused := true;
      log := log + [Paused];
    }

    method ResumeUpload(r: Replies, pauseAt: Option<nat>)
      modifies this
      ensures Snapshot() == ResumeUploadSpec(old(Snapshot()), r, pauseAt)
    {
      paused := false;
      if uploadId.Some? && uploadId.value != "" && file.Some? {
        log := log + [ResumingUpload];
        UploadChunks(uploadId.value, file.value, currentChunkIndex, [], r, pauseAt);
      }
    }

    method StartUpload(init: Option<InitReply>, r: Replies, pauseAt: Option<nat>)
      modifies this
      ensures Snapshot() == StartUploadSpec(old(Snapshot()), init, r, pauseAt)
    {
      if file.None? {
        return;
      }
      progress := 0;
      paused := false;
      log := [];
      trace := trace + [InitSession(file.value.name, file.value.size)];
      if init.None? {
        return;
      }
      var id := SessionIdOf(init.value);
      uploadId := Some(id);
      currentChunkIndex := 0;
      UploadChunks(id, file.value, 0, [], r, pauseAt);
    }

    method UploadChunks(id: string, f: File, from: nat, known: seq<int>, r: Replies, pauseAt: Option<nat>)
      modifies this
      ensures Snapshot() == UploadChunksSpec(old(Snapshot()), id, f, from, known, r, pauseAt)
    {
      ghost var s0 := Snapshot();
      var uploaded: seq<int>;
      if |known| > 0 {
        uploaded := known;
        assert s0.trace + QueryFor(id, known) == s0.trace;
      } else {
        trace := trace + [QueryUploaded(id)];
        if r.uploadedChunks.None? {
          return;
        }
        uploaded := r.uploadedChunks.value;
      }
      ghost var s1 := Snapshot();
      assert s1 == s0.(trace := s0.trace + QueryFor(id, known));
      UploadChunksWithList(s0, id, f, from, known, r, pauseAt, uploaded);
      var exhausted := TransmitChunks(id, f, from, uploaded, r, pauseAt);
      if !exhausted {
        return;
      }
      ghost var s2 := Snapshot();
      trace := trace + [CompleteSession(id)];
      if !r.completeOk {
        assert Snapshot() == CompleteSpec(s2, id, false);
        return;
      }
      log := log + [UploadComplete];
      uploadId := None;
      currentChunkIndex := 0;
      assert Snapshot() == CompleteSpec(s2, id, true);
    }

    /** The for loop of uploadChunks; `exhausted` tells whether it ran out of indices
        rather than returning early. */
    method TransmitChunks(id: string, f: File, from: nat, uploaded: seq<int>, r: Replies, pauseAt: Option<nat>)
      returns (exhausted: bool)
      modifies this
      ensures Snapshot() == TransmitSpec(old(Snapshot()), id, f, from, uploaded, r, pauseAt)
      ensures exhausted
          <==> LoopStop(from, TotalChunks(f.size, ChunkSize), uploaded, old(paused), pauseAt, r.rejectPutAt) == Exhausted
    {
      ghost var s0 := Snapshot();
      var total := TotalChunks(f.size, ChunkSize);
      var i := from;
      while i < total
        invariant from <= i && (i <= total || i == from)
        invariant LoopStop(from, total, uploaded, old(paused), pauseAt, r.rejectPutAt)
               == LoopStop(i, total, uploaded, old(paused), pauseAt, r.rejectPutAt)
        invariant paused == old(paused)
        invariant trace == old(trace) + SendTrace(id, f.size, from, i, uploaded)
        invariant log == old(log) + LoopLog(from, i, uploaded, total)
        invariant progress == ProgressAt(from, i, uploaded, total, old(progress))
        invariant file == old(file) && uploadId == old(uploadId)
        invariant currentChunkIndex == old(currentChunkIndex)
        invariant activeResumeSession == old(activeResumeSession)
      {
        if pauseAt == Some(i) {
          // the user's pause click, handled while the previous request was awaited
          PauseUpload();
          assert paused;
        }
        if paused {
          currentChunkIndex := i;
          assert LoopStop(i, total, uploaded, old(paused), pauseAt, r.rejectPutAt) == PausedAt(i);
          TransmitStopsPaused(s0, id, f, from, uploaded, r, pauseAt, i);
          return false;
        }
        if i in uploaded {
          log := log + [ChunkSkipped(i)];
          i := i + 1;
          continue;
        }
        var start := ChunkStart(i, ChunkSize);
        var end := ChunkEnd(i, f.size, ChunkSize);
        trace := trace + [PutChunk(id, i, start, end)];
        if r.rejectPutAt == Some(i) {
          assert LoopStop(i, total, uploaded, old(paused), pauseAt, r.rejectPutAt) == RejectedAt(i);
          TransmitStopsRejected(s0, id, f, from, uploaded, r, pauseAt, i);
          return false;
        }
        progress := Percent(i + 1, total);
        log := log + [ChunkUploaded(i, total)];
        i := i + 1;
      }
      assert LoopStop(i, total, uploaded, old(paused), pauseAt, r.rejectPutAt) == Exhausted;
      TransmitStopsExhausted(s0, id, f, from, uploaded, r, pauseAt, i);
      return true;
    }

    method ResumeOldSession(session: Session, loaded: Option<seq<int>>, r: Replies, pauseAt: Option<nat>)
      requires session.totalSize > 0
      modifies this
      ensures Snapshot() == ResumeOldSessionSpec(old(Snapshot()), session, loaded, r, pauseAt)
    {
      uploadId := Some(session.id);
      currentChunkIndex := 0;
      trace := trace + [QueryUploaded(session.id)];
      if loaded.None? {
        return;
      }
      var uploaded := loaded.value;
      progress := |uploaded| * 100 / TotalChunks(session.totalSize, ChunkSize);
      log := log + [SessionLoaded(session.fileName)];
      if file.Some? && file.value.name == session.fileName {
        log := log + [ResumingWithFile(file.value.name)];
        UploadChunks(session.id, file.value, 0, uploaded, r, pauseAt);
      } else {
        log := log + [ReselectNeeded(session.fileName)];
        activeResumeSession := Some(PendingResume(session, uploaded));
        trace := trace + [ClearFileInput];
      }
    }
  }
}
