/** Worked runs of the controller on concrete inputs. */
module UploadScenarios {
  import opened Wrappers
  import opened ChunkPlan
  import opened Transmission
  import opened UploadSpec
  import opened UploadProperties

  /** A 250 MiB file is cut into three chunks, the last one 50 MiB long. */
  lemma QuarterGigabyteChunks()
    ensures TotalChunks(250 * 1024 * 1024, ChunkSize) == 3
    ensures ChunkStart(2, ChunkSize) == 200 * 1024 * 1024
    ensures ChunkEnd(2, 250 * 1024 * 1024, ChunkSize) == 250 * 1024 * 1024
  {
    DivBounds(250 * 1024 * 1024 + ChunkSize - 1, ChunkSize);
  }

  /** Uploading a 250 MiB file whose first two chunks the backend already holds sends only
      the third chunk, bytes [200 MiB, 250 MiB), completes, and ends at 100 % with the session
      cleared. */
  lemma ResumeQuarterGigabyte(s: State, name: string, reply: InitReply)
    requires s.file == Some(File(name, 250 * 1024 * 1024))
    ensures var s' := StartUploadSpec(s, Some(reply), Replies(Some([0, 1]), None, true), None);
      var id := SessionIdOf(reply);
      && s'.trace == s.trace + [InitSession(name, 250 * 1024 * 1024), QueryUploaded(id),
                                PutChunk(id, 2, 200 * 1024 * 1024, 250 * 1024 * 1024), CompleteSession(id)]
      && s'.log == [ChunkSkipped(0), ChunkSkipped(1), ChunkUploaded(2, 3), UploadComplete]
      && s'.progress == 100
      && s'.uploadId == None && s'.currentChunkIndex == 0 && !s'.paused
  {
    var size := 250 * 1024 * 1024;
    var f := File(name, size);
    var r := Replies(Some([0, 1]), None, true);
    var id := SessionIdOf(reply);
    QuarterGigabyteChunks();
    StartUploadFreshRun(s, reply, r, [0, 1], f);
    assert SendTrace(id, size, 0, 3, [0, 1]) == [PutChunk(id, 2, 200 * 1024 * 1024, size)];
    assert LoopLog(0, 3, [0, 1], 3) == [ChunkSkipped(0), ChunkSkipped(1), ChunkUploaded(2, 3)];
    var s1 := s.(progress := 0, paused := false, log := [],
                 trace := s.trace + [InitSession(name, size)]).(uploadId := Some(id), currentChunkIndex := 0);
    forall j: nat | 0 <= j < 3
      ensures !Halts(j, [0, 1], false, None, None)
    {
    }
    UploadChunksRunsToEnd(s1, id, f, 0, [], r, None, [0, 1]);
    assert ProgressAt(0, 3, [0, 1], 3, 0) == 100;
  }

  /** The walk over [a, b) sends chunk a when the list does not hold it. */
  lemma {:induction false} SendTraceSendsFirst(id: string, size: nat, a: nat, b: nat, uploaded: seq<int>)
    requires a < b && a !in uploaded
    ensures Put(id, size, a) in SendTrace(id, size, a, b, uploaded)
    decreases b
  {
    var prev := SendTrace(id, size, a, b - 1, uploaded);
    assert SendTrace(id, size, a, b, uploaded)
        == prev + (if (b - 1) in uploaded then [] else [Put(id, size, b - 1)]);
    if a < b - 1 {
      SendTraceSendsFirst(id, size, a, b - 1, uploaded);
    } else {
      assert prev == [];
    }
  }

  /** After resumeOldSession parks a session because a different file is selected, that file
      stays selected and the session's id stays adopted, so a resume click sends the other
      file's first chunk into the old session. */
  lemma WrongFileResumedIntoOldSession(s: State, session: Session, b: File, r0: Replies,
                                       r: Replies, uploaded: seq<int>)
    requires session.totalSize > 0 && session.id != ""
    requires s.file == Some(b) && b.name != session.fileName && b.size > 0
    requires r.uploadedChunks == Some(uploaded) && 0 !in uploaded && r.rejectPutAt == None
    ensures var s1 := ResumeOldSessionSpec(s, session, Some([]), r0, None);
      && s1.activeResumeSession == Some(PendingResume(session, []))
      && PutChunk(session.id, 0, 0, ChunkEnd(0, b.size, ChunkSize)) in ResumeUploadSpec(s1, r, None).trace
  {
    var s1 := ResumeOldSessionSpec(s, session, Some([]), r0, None);
    ResumeOldSessionMismatch(s, session, [], r0, None);
    var s2 := s1.(paused := false).(log := s1.log + [ResumingUpload]);
    assert CanResume(s1.(paused := false));
    assert ResumeUploadSpec(s1, r, None) == UploadChunksSpec(s2, session.id, b, 0, [], r, None);
    var total := TotalChunks(b.size, ChunkSize);
    forall j: nat | 0 <= j < total
      ensures !Halts(j, uploaded, s2.paused, None, r.rejectPutAt)
    {
    }
    UploadChunksRunsToEnd(s2, session.id, b, 0, [], r, None, uploaded);
    SendTraceSendsFirst(session.id, b.size, 0, total, uploaded);
    assert Put(session.id, b.size, 0) == PutChunk(session.id, 0, 0, ChunkEnd(0, b.size, ChunkSize));
  }

  /** Resuming a matched old 250 MiB session whose chunks 1 and 2 the backend holds shows 66,
      the listed share; a pause handled at the first loop head leaves it on screen. */
  lemma ResumedProgressShowsListedShare(s: State, id: string, name: string, r: Replies)
    requires s.file == Some(File(name, 250 * 1024 * 1024)) && !s.paused
    ensures ResumeOldSessionSpec(s, Session(id, name, 250 * 1024 * 1024), Some([1, 2]), r, Some(0)).progress == 66
  {
    var size := 250 * 1024 * 1024;
    var f := File(name, size);
    QuarterGigabyteChunks();
    assert Percent(2, 3) == 66;
    ResumeOldSessionMatch(s, Session(id, name, size), [1, 2], r, Some(0));
    var s2 := s.(uploadId := Some(id), currentChunkIndex := 0,
                 trace := s.trace + [QueryUploaded(id)],
                 progress := 66,
                 log := s.log + [SessionLoaded(name), ResumingWithFile(name)]);
    assert LoopStop(0, 3, [1, 2], false, Some(0), r.rejectPutAt) == PausedAt(0);
    UploadChunksWithList(s2, id, f, 0, [1, 2], r, Some(0), [1, 2]);
    TransmitStopsPaused(s2, id, f, 0, [1, 2], r, Some(0), 0);
  }

  /** The same resumption without a pause sends chunk 0, whose write is 33, and completes
      at 33 rather than 100: the progress shown falls from 66 to 33. */
  lemma ResumedProgressDrops(s: State, id: string, name: string, r: Replies)
    requires s.file == Some(File(name, 250 * 1024 * 1024)) && !s.paused
    requires r.rejectPutAt == None && r.completeOk
    ensures var s' := ResumeOldSessionSpec(s, Session(id, name, 250 * 1024 * 1024), Some([1, 2]), r, None);
      s'.progress == 33 && s'.uploadId == None
  {
    var size := 250 * 1024 * 1024;
    var f := File(name, size);
    QuarterGigabyteChunks();
    assert Percent(2, 3) == 66;
    var s2 := s.(uploadId := Some(id), currentChunkIndex := 0,
                 trace := s.trace + [QueryUploaded(id)],
                 progress := 66,
                 log := s.log + [SessionLoaded(name)] + [ResumingWithFile(name)]);
    assert ResumeOldSessionSpec(s, Session(id, name, size), Some([1, 2]), r, None)
        == UploadChunksSpec(s2, id, f, 0, [1, 2], r, None);
    forall j: nat | 0 <= j < 3
      ensures !Halts(j, [1, 2], false, None, None)
    {
    }
    UploadChunksRunsToEnd(s2, id, f, 0, [1, 2], r, None, [1, 2]);
    assert ProgressAt(0, 3, [1, 2], 3, 66) == 33;
  }
}
