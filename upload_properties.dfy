/** What the upload controller promises, proved about the functions of UploadSpec. */
module UploadProperties {
  import opened Wrappers
  import opened ChunkPlan
  import opened Transmission
  import opened UploadSpec

  // ---------------------------------------------------------------------------
  // Reading a trace

  /** The chunk indices of the send requests in `es`, in order. */
  function PutIndices(es: seq<Effect>): seq<nat>
    decreases |es|
  {
    if es == [] then []
    else PutIndices(es[..|es| - 1]) + (if es[|es| - 1].PutChunk? then [es[|es| - 1].index] else [])
  }

  /** How many uploaded-chunk queries `es` holds. */
  function Queries(es: seq<Effect>): nat
    decreases |es|
  {
    if es == [] then 0
    else Queries(es[..|es| - 1]) + (if es[|es| - 1].QueryUploaded? then 1 else 0)
  }

  /** How many completion requests `es` holds. */
  function Completions(es: seq<Effect>): nat
    decreases |es|
  {
    if es == [] then 0
    else Completions(es[..|es| - 1]) + (if es[|es| - 1].CompleteSession? then 1 else 0)
  }

  lemma {:induction false} TraceAppend(a: seq<Effect>, b: seq<Effect>)
    ensures PutIndices(a + b) == PutIndices(a) + PutIndices(b)
    ensures Queries(a + b) == Queries(a) + Queries(b)
    ensures Completions(a + b) == Completions(a) + Completions(b)
    decreases |b|
  {
    if b == [] {
      assert a + b == a;
    } else {
      var b' := b[..|b| - 1];
      assert (a + b)[..|a + b| - 1] == a + b';
      TraceAppend(a, b');
    }
  }

  /** The send requests of a walk are requests for exactly the chunks ToSend names, one
      request per chunk. */
  lemma {:induction false} SendTraceShape(id: string, size: nat, a: nat, b: nat, uploaded: seq<int>)
    ensures PutIndices(SendTrace(id, size, a, b, uploaded)) == ToSend(a, b, uploaded)
    ensures |SendTrace(id, size, a, b, uploaded)| == |ToSend(a, b, uploaded)|
    ensures Queries(SendTrace(id, size, a, b, uploaded)) == 0
    ensures Completions(SendTrace(id, size, a, b, uploaded)) == 0
  {
    SendTraceIndices(id, size, a, b, uploaded);
    SendTraceLength(id, size, a, b, uploaded);
    SendTraceCounts(id, size, a, b, uploaded);
  }

  lemma {:induction false} SendTraceIndices(id: string, size: nat, a: nat, b: nat, uploaded: seq<int>)
    ensures PutIndices(SendTrace(id, size, a, b, uploaded)) == ToSend(a, b, uploaded)
    decreases b
  {
    if b > a {
      SendTraceIndices(id, size, a, b - 1, uploaded);
      SendTraceIndicesStep(id, size, a, b, uploaded);
    }
  }

  lemma SendTraceIndicesStep(id: string, size: nat, a: nat, b: nat, uploaded: seq<int>)
    requires a < b
    requires PutIndices(SendTrace(id, size, a, b - 1, uploaded)) == ToSend(a, b - 1, uploaded)
    ensures PutIndices(SendTrace(id, size, a, b, uploaded)) == ToSend(a, b, uploaded)
  {
    var prev := SendTrace(id, size, a, b - 1, uploaded);
    if (b - 1) !in uploaded {
      var e := Put(id, size, b - 1);
      assert SendTrace(id, size, a, b, uploaded) == prev + [e];
      IndicesSnoc(prev, ToSend(a, b - 1, uploaded), e, b - 1);
    } else {
      assert SendTrace(id, size, a, b, uploaded) == prev;
      assert ToSend(a, b, uploaded) == ToSend(a, b - 1, uploaded) + [];
    }
  }

  lemma IndicesSnoc(es: seq<Effect>, sent: seq<nat>, e: Effect, i: nat)
    requires PutIndices(es) == sent && e.PutChunk? && e.index == i
    ensures PutIndices(es + [e]) == sent + [i]
  {
    TraceSnoc(es, e);
  }

  lemma {:induction false} SendTraceLength(id: string, size: nat, a: nat, b: nat, uploaded: seq<int>)
    ensures |SendTrace(id, size, a, b, uploaded)| == |ToSend(a, b, uploaded)|
    decreases b
  {
    if b > a {
      SendTraceLength(id, size, a, b - 1, uploaded);
    }
  }

  /** ... and a walk makes no query and no completion request. */
  lemma {:induction false} SendTraceCounts(id: string, size: nat, a: nat, b: nat, uploaded: seq<int>)
    ensures Queries(SendTrace(id, size, a, b, uploaded)) == 0
    ensures Completions(SendTrace(id, size, a, b, uploaded)) == 0
    decreases b
  {
    if b > a {
      SendTraceCounts(id, size, a, b - 1, uploaded);
      var prev := SendTrace(id, size, a, b - 1, uploaded);
      if (b - 1) !in uploaded {
        var e := Put(id, size, b - 1);
        assert e.PutChunk?;
        assert SendTrace(id, size, a, b, uploaded) == prev + [e];
        TraceSnoc(prev, e);
      } else {
        assert SendTrace(id, size, a, b, uploaded) == prev;
      }
    }
  }

  /** Reading one more effect at the end of a trace. */
  lemma TraceSnoc(es: seq<Effect>, e: Effect)
    ensures PutIndices(es + [e]) == PutIndices(es) + (if e.PutChunk? then [e.index] else [])
    ensures Queries(es + [e]) == Queries(es) + (if e.QueryUploaded? then 1 else 0)
    ensures Completions(es + [e]) == Completions(es) + (if e.CompleteSession? then 1 else 0)
  {
    assert (es + [e])[..|es + [e]| - 1] == es;
  }

  /** Each send request of a walk carries the session id and the byte range of its chunk. */
  lemma {:induction false} SendTraceRanges(id: string, size: nat, a: nat, b: nat, uploaded: seq<int>)
    ensures forall e :: e in SendTrace(id, size, a, b, uploaded) ==>
              e.PutChunk? && e.id == id && a <= e.index < b
              && e.start == ChunkStart(e.index, ChunkSize) && e.end == ChunkEnd(e.index, size, ChunkSize)
    decreases b
  {
    if b > a {
      SendTraceRanges(id, size, a, b - 1, uploaded);
    }
  }

  lemma SingleEffects(e: Effect)
    ensures PutIndices([e]) == (if e.PutChunk? then [e.index] else [])
    ensures Queries([e]) == (if e.QueryUploaded? then 1 else 0)
    ensures Completions([e]) == (if e.CompleteSession? then 1 else 0)
  {
    assert [e][..0] == [];
  }

  // ---------------------------------------------------------------------------
  // The transmission loop

  /** UploadChunksSpec when the loop runs out of indices: the walk over all of
      [from, TotalChunks) followed by the completion. */
  lemma UploadChunksExhausted(s: State, id: string, f: File, from: nat, known: seq<int>,
                              r: Replies, pauseAt: Option<nat>, uploaded: seq<int>)
    requires ChunkList(known, r) == Some(uploaded)
    requires LoopStop(from, TotalChunks(f.size, ChunkSize), uploaded, s.paused, pauseAt, r.rejectPutAt) == Exhausted
    ensures UploadChunksSpec(s, id, f, from, known, r, pauseAt)
         == CompleteSpec(WalkSpec(s.(trace := s.trace + QueryFor(id, known)), id, f, from,
                                  TotalChunks(f.size, ChunkSize), uploaded), id, r.completeOk)
  {
    UploadChunksWithList(s, id, f, from, known, r, pauseAt, uploaded);
    var w := WalkSpec(s.(trace := s.trace + QueryFor(id, known)), id, f, from, TotalChunks(f.size, ChunkSize), uploaded);
    assert w.log + PauseLog(Exhausted, pauseAt) == w.log;
    assert w.trace + RejectedSend(Exhausted, id, f.size) == w.trace;
  }

  /** When no loop head in [from, TotalChunks) halts, uploadChunks issues the query (unless
      a list is known), the walk's send requests and one completion request; a successful
      completion clears the session id and the index, a failed one leaves them. */
  lemma UploadChunksRunsToEnd(s: State, id: string, f: File, from: nat, known: seq<int>,
                              r: Replies, pauseAt: Option<nat>, uploaded: seq<int>)
    requires ChunkList(known, r) == Some(uploaded)
    requires forall j: nat :: from <= j < TotalChunks(f.size, ChunkSize) ==>
               !Halts(j, uploaded, s.paused, pauseAt, r.rejectPutAt)
    ensures var s' := UploadChunksSpec(s, id, f, from, known, r, pauseAt);
      && s'.trace == s.trace + QueryFor(id, known)
                     + SendTrace(id, f.size, from, TotalChunks(f.size, ChunkSize), uploaded) + [CompleteSession(id)]
      && s'.log == s.log + LoopLog(from, TotalChunks(f.size, ChunkSize), uploaded, TotalChunks(f.size, ChunkSize))
                   + (if r.completeOk then [UploadComplete] else [])
      && s'.progress == ProgressAt(from, TotalChunks(f.size, ChunkSize), uploaded, TotalChunks(f.size, ChunkSize), s.progress)
      && s'.paused == s.paused
      && (r.completeOk ==> s'.uploadId == None && s'.currentChunkIndex == 0)
      && (!r.completeOk ==> s'.uploadId == s.uploadId && s'.currentChunkIndex == s.currentChunkIndex)
      && s'.activeResumeSession == s.activeResumeSession && s'.file == s.file
  {
    LoopStopIsFirstHalt(from, TotalChunks(f.size, ChunkSize), uploaded, s.paused, pauseAt, r.rejectPutAt);
    UploadChunksExhausted(s, id, f, from, known, r, pauseAt, uploaded);
  }

  /** What a trace gains from the query (unless a list is known) and a walk over [from, k). */
  lemma WalkPrefixCounts(t0: seq<Effect>, id: string, size: nat, from: nat, k: nat,
                         known: seq<int>, uploaded: seq<int>)
    ensures var t := t0 + QueryFor(id, known) + SendTrace(id, size, from, k, uploaded);
      && PutIndices(t) == PutIndices(t0) + ToSend(from, k, uploaded)
      && Queries(t) == Queries(t0) + (if |known| == 0 then 1 else 0)
      && Completions(t) == Completions(t0)
  {
    var q := QueryFor(id, known);
    if |known| == 0 {
      assert t0 + q == t0 + [QueryUploaded(id)];
      TraceSnoc(t0, QueryUploaded(id));
    } else {
      assert t0 + q == t0;
    }
    SendTraceShape(id, size, from, k, uploaded);
    TraceAppend(t0 + q, SendTrace(id, size, from, k, uploaded));
  }

  /** ... so the chunks it sends are those ToSend names (exactly the chunks of
      [from, TotalChunks) the list does not hold, in increasing order: ToSendMembers,
      ToSendIncreasing), and it makes exactly one completion request. */
  lemma UploadChunksSendsMissing(s: State, id: string, f: File, from: nat, known: seq<int>,
                                 r: Replies, pauseAt: Option<nat>, uploaded: seq<int>)
    requires ChunkList(known, r) == Some(uploaded)
    requires forall j: nat :: from <= j < TotalChunks(f.size, ChunkSize) ==>
               !Halts(j, uploaded, s.paused, pauseAt, r.rejectPutAt)
    ensures var s' := UploadChunksSpec(s, id, f, from, known, r, pauseAt);
      && PutIndices(s'.trace) == PutIndices(s.trace) + ToSend(from, TotalChunks(f.size, ChunkSize), uploaded)
      && Completions(s'.trace) == Completions(s.trace) + 1
  {
    var total := TotalChunks(f.size, ChunkSize);
    UploadChunksRunsToEnd(s, id, f, from, known, r, pauseAt, uploaded);
    var prefix := s.trace + QueryFor(id, known) + SendTrace(id, f.size, from, total, uploaded);
    WalkPrefixCounts(s.trace, id, f.size, from, total, known, uploaded);
    TraceSnoc(prefix, CompleteSession(id));
  }

  /** The oracle is asked for the uploaded chunks exactly when the known list is empty,
      and then once; a non-empty known list is used as it is. */
  lemma UploadChunksQueriesIffUnknown(s: State, id: string, f: File, from: nat, known: seq<int>,
                                      r: Replies, pauseAt: Option<nat>)
    ensures Queries(UploadChunksSpec(s, id, f, from, known, r, pauseAt).trace)
         == Queries(s.trace) + (if |known| == 0 then 1 else 0)
  {
    var total := TotalChunks(f.size, ChunkSize);
    match ChunkList(known, r)
    case None =>
      WalkPrefixCounts(s.trace, id, f.size, from, from, known, []);
      assert s.trace + QueryFor(id, known) + SendTrace(id, f.size, from, from, []) == s.trace + QueryFor(id, known);
    case Some(uploaded) =>
      var stop := LoopStop(from, total, uploaded, s.paused, pauseAt, r.rejectPutAt);
      LoopStopIsFirstHalt(from, total, uploaded, s.paused, pauseAt, r.rejectPutAt);
      match stop
      case Exhausted =>
        UploadChunksRunsToEnd(s, id, f, from, known, r, pauseAt, uploaded);
        WalkPrefixCounts(s.trace, id, f.size, from, total, known, uploaded);
        TraceSnoc(s.trace + QueryFor(id, known) + SendTrace(id, f.size, from, total, uploaded), CompleteSession(id));
      case PausedAt(k) =>
        UploadChunksPausedAt(s, id, f, from, known, r, pauseAt, uploaded, k);
        WalkPrefixCounts(s.trace, id, f.size, from, k, known, uploaded);
      case RejectedAt(k) =>
        UploadChunksRejected(s, id, f, from, known, r, pauseAt, uploaded, k);
        WalkPrefixCounts(s.trace, id, f.size, from, k, known, uploaded);
        TraceSnoc(s.trace + QueryFor(id, known) + SendTrace(id, f.size, from, k, uploaded), Put(id, f.size, k));
  }

  /** A non-empty known list is the list the run works with: the backend's answer to a query
      plays no part, and the trace gains the walk's sends over that list up to where it stops. */
  lemma UploadChunksUsesKnownList(s: State, id: string, f: File, from: nat, known: seq<int>,
                                  r: Replies, pauseAt: Option<nat>, other: Option<seq<int>>)
    requires |known| > 0
    ensures UploadChunksSpec(s, id, f, from, known, r, pauseAt)
         == UploadChunksSpec(s, id, f, from, known, r.(uploadedChunks := other), pauseAt)
    ensures var total := TotalChunks(f.size, ChunkSize);
      var stop := LoopStop(from, total, known, s.paused, pauseAt, r.rejectPutAt);
      s.trace + SendTrace(id, f.size, from, StopIndex(stop, total), known)
        <= UploadChunksSpec(s, id, f, from, known, r, pauseAt).trace
  {
    var total := TotalChunks(f.size, ChunkSize);
    var stop := LoopStop(from, total, known, s.paused, pauseAt, r.rejectPutAt);
    UploadChunksWithList(s, id, f, from, known, r, pauseAt, known);
    assert s.trace + QueryFor(id, known) == s.trace;
    var sends := s.trace + SendTrace(id, f.size, from, StopIndex(stop, total), known);
    var t2 := sends + RejectedSend(stop, id, f.size);
    assert TransmitSpec(s, id, f, from, known, r, pauseAt).trace == t2;
    assert sends <= t2;
    assert sends <= t2 + [CompleteSession(id)];
  }

  /** A pause seen at the head of iteration k ends uploadChunks there: the index is k, the
      flag stays raised, the session id is untouched, only the chunks of [from, k) not yet
      uploaded were sent, and no completion request is made. */
  lemma UploadChunksPausedAt(s: State, id: string, f: File, from: nat, known: seq<int>,
                             r: Replies, pauseAt: Option<nat>, uploaded: seq<int>, k: nat)
    requires ChunkList(known, r) == Some(uploaded)
    requires LoopStop(from, TotalChunks(f.size, ChunkSize), uploaded, s.paused, pauseAt, r.rejectPutAt) == PausedAt(k)
    ensures var s' := UploadChunksSpec(s, id, f, from, known, r, pauseAt);
      && from <= k < TotalChunks(f.size, ChunkSize)
      && s'.currentChunkIndex == k && s'.paused
      && s'.uploadId == s.uploadId
      && s'.trace == s.trace + QueryFor(id, known) + SendTrace(id, f.size, from, k, uploaded)
      && PutIndices(SendTrace(id, f.size, from, k, uploaded)) == ToSend(from, k, uploaded)
      && Completions(s'.trace) == Completions(s.trace)
  {
    var total := TotalChunks(f.size, ChunkSize);
    LoopStopIsFirstHalt(from, total, uploaded, s.paused, pauseAt, r.rejectPutAt);
    UploadChunksWithList(s, id, f, from, known, r, pauseAt, uploaded);
    TransmitStopsPaused(s.(trace := s.trace + QueryFor(id, known)), id, f, from, uploaded, r, pauseAt, k);
    SendTraceShape(id, f.size, from, k, uploaded);
    WalkPrefixCounts(s.trace, id, f.size, from, k, known, uploaded);
  }

  /** With the pause flag already raised, uploadChunks stops at its first index before
      sending anything. */
  lemma UploadChunksAlreadyPaused(s: State, id: string, f: File, from: nat, known: seq<int>,
                                  r: Replies, pauseAt: Option<nat>, uploaded: seq<int>)
    requires ChunkList(known, r) == Some(uploaded)
    requires s.paused && from < TotalChunks(f.size, ChunkSize)
    ensures var s' := UploadChunksSpec(s, id, f, from, known, r, pauseAt);
      && s'.currentChunkIndex == from && s'.paused && s'.uploadId == s.uploadId
      && s'.trace == s.trace + QueryFor(id, known)
      && s'.progress == s.progress
  {
  }

  /** A rejected send aborts uploadChunks: no completion request, the index and the session
      id stay as they were, and the rejected request is the last one issued. */
  lemma UploadChunksRejected(s: State, id: string, f: File, from: nat, known: seq<int>,
                             r: Replies, pauseAt: Option<nat>, uploaded: seq<int>, k: nat)
    requires ChunkList(known, r) == Some(uploaded)
    requires LoopStop(from, TotalChunks(f.size, ChunkSize), uploaded, s.paused, pauseAt, r.rejectPutAt) == RejectedAt(k)
    ensures var s' := UploadChunksSpec(s, id, f, from, known, r, pauseAt);
      && k !in uploaded && r.rejectPutAt == Some(k)
      && s'.currentChunkIndex == s.currentChunkIndex && s'.uploadId == s.uploadId
      && s'.trace == s.trace + QueryFor(id, known) + SendTrace(id, f.size, from, k, uploaded) + [Put(id, f.size, k)]
      && Completions(s'.trace) == Completions(s.trace)
  {
    var total := TotalChunks(f.size, ChunkSize);
    LoopStopIsFirstHalt(from, total, uploaded, s.paused, pauseAt, r.rejectPutAt);
    UploadChunksWithList(s, id, f, from, known, r, pauseAt, uploaded);
    TransmitStopsRejected(s.(trace := s.trace + QueryFor(id, known)), id, f, from, uploaded, r, pauseAt, k);
    WalkPrefixCounts(s.trace, id, f.size, from, k, known, uploaded);
    TraceSnoc(s.trace + QueryFor(id, known) + SendTrace(id, f.size, from, k, uploaded), Put(id, f.size, k));
  }

  /** An empty file has no chunks: uploadChunks sends nothing and completes at once, even
      with the pause flag raised. */
  lemma UploadChunksEmptyFile(s: State, id: string, f: File, from: nat, known: seq<int>,
                              r: Replies, pauseAt: Option<nat>)
    requires f.size == 0 && ChunkList(known, r).Some?
    ensures var s' := UploadChunksSpec(s, id, f, from, known, r, pauseAt);
      && s'.trace == s.trace + QueryFor(id, known) + [CompleteSession(id)]
      && s'.progress == s.progress
  {
    EmptyFileHasNoChunks(ChunkSize);
  }

  /** When every chunk is already uploaded, a walk from 0 sends nothing and makes exactly
      one completion request, whatever send would have been rejected. */
  lemma UploadChunksAllUploaded(s: State, id: string, f: File, known: seq<int>,
                                r: Replies, uploaded: seq<int>)
    requires ChunkList(known, r) == Some(uploaded)
    requires !s.paused
    requires forall i: nat :: i < TotalChunks(f.size, ChunkSize) ==> i in uploaded
    ensures var s' := UploadChunksSpec(s, id, f, 0, known, r, None);
      && s'.trace == s.trace + QueryFor(id, known) + [CompleteSession(id)]
      && PutIndices(s'.trace) == PutIndices(s.trace)
      && (r.completeOk ==> s'.uploadId == None && s'.currentChunkIndex == 0)
  {
    var total := TotalChunks(f.size, ChunkSize);
    forall j: nat | 0 <= j < total
      ensures !Halts(j, uploaded, s.paused, None, r.rejectPutAt)
    {
    }
    UploadChunksRunsToEnd(s, id, f, 0, known, r, None, uploaded);
    UploadChunksSendsMissing(s, id, f, 0, known, r, None, uploaded);
    ToSendAllUploaded(0, total, uploaded);
    SendTraceShape(id, f.size, 0, total, uploaded);
    assert SendTrace(id, f.size, 0, total, uploaded) == [];
    assert PutIndices(s.trace) + [] == PutIndices(s.trace);
    assert s.trace + QueryFor(id, known) + [] == s.trace + QueryFor(id, known);
  }

  /** Progress after a walk that reached the end: 100 when the last chunk was sent by it. */
  lemma UploadChunksEndsAt100(s: State, id: string, f: File, from: nat, known: seq<int>,
                              r: Replies, pauseAt: Option<nat>, uploaded: seq<int>)
    requires ChunkList(known, r) == Some(uploaded)
    requires from < TotalChunks(f.size, ChunkSize)
    requires forall j: nat :: from <= j < TotalChunks(f.size, ChunkSize) ==>
               !Halts(j, uploaded, s.paused, pauseAt, r.rejectPutAt)
    requires (TotalChunks(f.size, ChunkSize) - 1) !in uploaded
    ensures UploadChunksSpec(s, id, f, from, known, r, pauseAt).progress == 100
  {
    var total := TotalChunks(f.size, ChunkSize);
    LoopStopIsFirstHalt(from, total, uploaded, s.paused, pauseAt, r.rejectPutAt);
    ProgressAfterWalk(from, total, uploaded, s.progress);
  }

  // ---------------------------------------------------------------------------
  // Pause and resume

  /** A pause handled at head k of an unpaused walk without rejections stops it at k. */
  lemma PauseClickStopsAt(from: nat, k: nat, total: nat, uploaded: seq<int>)
    requires from <= k < total
    ensures LoopStop(from, total, uploaded, false, Some(k), None) == PausedAt(k)
  {
    LoopStopIsFirstHalt(from, total, uploaded, false, Some(k), None);
    assert Halts(k, uploaded, false, Some(k), None);
  }

  /** With a session id and a file, pausing at head k of a run from `from` and resuming
      sends, after the chunks of [from, k) the first list does not hold, exactly the chunks
      of [k, total) the resumed run's list does not hold, then completes; no chunk is sent
      by both runs, and with the same list both runs together send what one unpaused run
      would. */
  lemma PauseThenResume(s: State, id: string, f: File, from: nat, k: nat,
                        r1: Replies, u1: seq<int>, r2: Replies, u2: seq<int>)
    requires s.uploadId == Some(id) && id != "" && s.file == Some(f) && !s.paused
    requires from <= k < TotalChunks(f.size, ChunkSize)
    requires r1.uploadedChunks == Some(u1) && r1.rejectPutAt == None
    requires r2.uploadedChunks == Some(u2) && r2.rejectPutAt == None
    ensures var s1 := UploadChunksSpec(s, id, f, from, [], r1, Some(k));
      var s2 := ResumeUploadSpec(s1, r2, None);
      var total := TotalChunks(f.size, ChunkSize);
      && s1.currentChunkIndex == k && s1.paused && s1.uploadId == Some(id)
      && s2.trace == s.trace + [QueryUploaded(id)] + SendTrace(id, f.size, from, k, u1)
                     + [QueryUploaded(id)] + SendTrace(id, f.size, k, total, u2) + [CompleteSession(id)]
      && (forall x :: x in ToSend(from, k, u1) ==> x !in ToSend(k, total, u2))
      && (u1 == u2 ==> ToSend(from, k, u1) + ToSend(k, total, u2) == ToSend(from, total, u1))
      && !s2.paused
      && (r2.completeOk ==> s2.uploadId == None && s2.currentChunkIndex == 0)
  {
    var total := TotalChunks(f.size, ChunkSize);
    PauseClickStopsAt(from, k, total, u1);
    UploadChunksPausedAt(s, id, f, from, [], r1, Some(k), u1, k);
    UploadChunksKeepsPending(s, id, f, from, [], r1, Some(k));
    var s1 := UploadChunksSpec(s, id, f, from, [], r1, Some(k));
    assert CanResume(s1.(paused := false));
    var s1' := s1.(paused := false).(log := s1.log + [ResumingUpload]);
    assert ResumeUploadSpec(s1, r2, None) == UploadChunksSpec(s1', id, f, k, [], r2, None);
    forall j: nat | k <= j < total
      ensures !Halts(j, u2, false, None, None)
    {
    }
    UploadChunksRunsToEnd(s1', id, f, k, [], r2, None, u2);
    ToSendDisjoint(from, k, total, u1, u2);
    ToSendSplit(from, k, total, u1);
  }

  /** resumeUpload without a session id or a file only lowers the pause flag. */
  lemma ResumeWithoutSession(s: State, r: Replies, pauseAt: Option<nat>)
    requires s.uploadId.None? || s.uploadId == Some("") || s.file.None?
    ensures ResumeUploadSpec(s, r, pauseAt) == s.(paused := false)
  {
  }

  // ---------------------------------------------------------------------------
  // Starting an upload

  /** startUpload with a file opens a session with that file's name and size, starts a
      fresh log at progress 0, always asks the oracle, and with no pause and no rejected
      request sends every chunk the oracle does not list and completes. */
  lemma StartUploadFreshRun(s: State, reply: InitReply, r: Replies, uploaded: seq<int>, f: File)
    requires s.file == Some(f)
    requires r.uploadedChunks == Some(uploaded) && r.rejectPutAt == None
    ensures var s' := StartUploadSpec(s, Some(reply), r, None);
      var id := SessionIdOf(reply);
      var total := TotalChunks(f.size, ChunkSize);
      && s'.trace == s.trace + [InitSession(f.name, f.size), QueryUploaded(id)]
                     + SendTrace(id, f.size, 0, total, uploaded) + [CompleteSession(id)]
      && s'.log == LoopLog(0, total, uploaded, total) + (if r.completeOk then [UploadComplete] else [])
      && !s'.paused
      && (r.completeOk ==> s'.uploadId == None && s'.currentChunkIndex == 0)
      && (!r.completeOk ==> s'.uploadId == Some(id) && s'.currentChunkIndex == 0)
  {
    var id := SessionIdOf(reply);
    var s1 := s.(progress := 0, paused := false, log := [],
                 trace := s.trace + [InitSession(f.name, f.size)]).(uploadId := Some(id), currentChunkIndex := 0);
    assert StartUploadSpec(s, Some(reply), r, None) == UploadChunksSpec(s1, id, f, 0, [], r, None);
    forall j: nat | 0 <= j < TotalChunks(f.size, ChunkSize)
      ensures !Halts(j, uploaded, false, None, None)
    {
    }
    UploadChunksRunsToEnd(s1, id, f, 0, [], r, None, uploaded);
    assert [] + LoopLog(0, TotalChunks(f.size, ChunkSize), uploaded, TotalChunks(f.size, ChunkSize))
        == LoopLog(0, TotalChunks(f.size, ChunkSize), uploaded, TotalChunks(f.size, ChunkSize));
  }

  /** startUpload without a file does nothing. */
  lemma StartUploadWithoutFile(s: State, init: Option<InitReply>, r: Replies, pauseAt: Option<nat>)
    requires s.file.None?
    ensures StartUploadSpec(s, init, r, pauseAt) == s
  {
  }

  // ---------------------------------------------------------------------------
  // Reconciliation

  /** resumeOldSession when the selected file has the session's name: the session id is
      adopted, the oracle is asked once, and transmission runs from index 0 with the list
      it returned (a list that is not empty is not asked for again). */
  lemma ResumeOldSessionMatch(s: State, session: Session, uploaded: seq<int>, r: Replies, pauseAt: Option<nat>)
    requires session.totalSize > 0
    requires s.file.Some? && s.file.value.name == session.fileName
    ensures var s' := ResumeOldSessionSpec(s, session, Some(uploaded), r, pauseAt);
      var s2 := s.(uploadId := Some(session.id), currentChunkIndex := 0,
                   trace := s.trace + [QueryUploaded(session.id)],
                   progress := Percent(|uploaded|, TotalChunks(session.totalSize, ChunkSize)),
                   log := s.log + [SessionLoaded(session.fileName), ResumingWithFile(session.fileName)]);
      && s' == UploadChunksSpec(s2, session.id, s.file.value, 0, uploaded, r, pauseAt)
      && Queries(s'.trace) == Queries(s.trace) + (if |uploaded| == 0 then 2 else 1)
      && s'.activeResumeSession == s.activeResumeSession
  {
    var s2 := s.(uploadId := Some(session.id), currentChunkIndex := 0,
                 trace := s.trace + [QueryUploaded(session.id)],
                 progress := Percent(|uploaded|, TotalChunks(session.totalSize, ChunkSize)),
                 log := s.log + [SessionLoaded(session.fileName), ResumingWithFile(session.fileName)]);
    assert s.log + [SessionLoaded(session.fileName)] + [ResumingWithFile(session.fileName)]
        == s.log + [SessionLoaded(session.fileName), ResumingWithFile(session.fileName)];
    UploadChunksQueriesIffUnknown(s2, session.id, s.file.value, 0, uploaded, r, pauseAt);
    TraceAppend(s.trace, [QueryUploaded(session.id)]);
    SingleEffects(QueryUploaded(session.id));
    UploadChunksKeepsPending(s2, session.id, s.file.value, 0, uploaded, r, pauseAt);
  }

  /** uploadChunks never touches the selected file or the pending session. */
  lemma UploadChunksKeepsPending(s: State, id: string, f: File, from: nat, known: seq<int>,
                                 r: Replies, pauseAt: Option<nat>)
    ensures UploadChunksSpec(s, id, f, from, known, r, pauseAt).activeResumeSession == s.activeResumeSession
    ensures UploadChunksSpec(s, id, f, from, known, r, pauseAt).file == s.file
  {
  }

  /** resumeOldSession when no file or another file is selected: nothing is sent, the
      session and its fetched list are parked, the file input is cleared, and the progress
      shown is the share of chunks the list names. */
  lemma ResumeOldSessionMismatch(s: State, session: Session, uploaded: seq<int>, r: Replies, pauseAt: Option<nat>)
    requires session.totalSize > 0
    requires s.file.None? || s.file.value.name != session.fileName
    ensures var s' := ResumeOldSessionSpec(s, session, Some(uploaded), r, pauseAt);
      && s'.trace == s.trace + [QueryUploaded(session.id), ClearFileInput]
      && PutIndices(s'.trace) == PutIndices(s.trace)
      && s'.activeResumeSession == Some(PendingResume(session, uploaded))
      && s'.uploadId == Some(session.id) && s'.currentChunkIndex == 0
      && s'.file == s.file && s'.paused == s.paused
      && s'.progress == Percent(|uploaded|, TotalChunks(session.totalSize, ChunkSize))
      && Queries(s'.trace) == Queries(s.trace) + 1
  {
    var q := QueryUploaded(session.id);
    var s2 := s.(uploadId := Some(session.id), currentChunkIndex := 0, trace := s.trace + [q],
                 progress := Percent(|uploaded|, TotalChunks(session.totalSize, ChunkSize)),
                 log := s.log + [SessionLoaded(session.fileName)]);
    assert ResumeOldSessionSpec(s, session, Some(uploaded), r, pauseAt)
        == s2.(log := s2.log + [ReselectNeeded(session.fileName)],
               activeResumeSession := Some(PendingResume(session, uploaded)),
               trace := s.trace + [q] + [ClearFileInput]);
    assert s.trace + [q] + [ClearFileInput] == s.trace + [q, ClearFileInput];
    TraceSnoc(s.trace, q);
    TraceSnoc(s.trace + [q], ClearFileInput);
  }

  /** Selecting a file that is not the one a pending session waits for only records the
      selection: nothing is sent and the pending session stays. */
  lemma OnFileSelectedOther(s: State, selected: Option<File>, r: Replies, pauseAt: Option<nat>)
    requires !Reselects(s, selected)
    ensures OnFileSelectedSpec(s, selected, r, pauseAt) == s.(file := selected)
  {
  }

  /** Reselecting the pending session's file consumes the pending state, adopts its session
      id and transmits from index 0 with the stored list, asking the oracle only when the
      stored list is empty. */
  lemma OnFileSelectedResumes(s: State, f: File, r: Replies, pauseAt: Option<nat>)
    requires Reselects(s, Some(f))
    ensures var p := s.activeResumeSession.value;
      var s' := OnFileSelectedSpec(s, Some(f), r, pauseAt);
      && s' == UploadChunksSpec(s.(file := Some(f), log := s.log + [FileReselected],
                                   uploadId := Some(p.session.id), activeResumeSession := None),
                                p.session.id, f, 0, p.uploadedChunks, r, pauseAt)
      && s'.activeResumeSession == None && s'.file == Some(f)
      && Queries(s'.trace) == Queries(s.trace) + (if |p.uploadedChunks| == 0 then 1 else 0)
      && (s'.uploadId == Some(p.session.id) || s'.uploadId == None)
  {
    var p := s.activeResumeSession.value;
    var s1 := s.(file := Some(f), log := s.log + [FileReselected],
                 uploadId := Some(p.session.id), activeResumeSession := None);
    UploadChunksQueriesIffUnknown(s1, p.session.id, f, 0, p.uploadedChunks, r, pauseAt);
    UploadChunksKeepsPending(s1, p.session.id, f, 0, p.uploadedChunks, r, pauseAt);
  }

  /** A session for file a, asked for while file b is selected, sends nothing and waits;
      selecting a afterwards resumes with the list fetched the first time, without asking
      the oracle again: only the chunks it does not list are sent, then one completion. */
  lemma MismatchThenReselect(s: State, session: Session, uploaded: seq<int>, r0: Replies,
                             pauseAt0: Option<nat>, a: File, r: Replies)
    requires session.totalSize > 0 && |uploaded| > 0 && !s.paused
    requires s.file.None? || s.file.value.name != session.fileName
    requires a.name == session.fileName && r.rejectPutAt == None
    ensures var s1 := ResumeOldSessionSpec(s, session, Some(uploaded), r0, pauseAt0);
      var s2 := OnFileSelectedSpec(s1, Some(a), r, None);
      && s2.trace == s.trace + [QueryUploaded(session.id), ClearFileInput]
                     + SendTrace(session.id, a.size, 0, TotalChunks(a.size, ChunkSize), uploaded)
                     + [CompleteSession(session.id)]
      && Queries(s2.trace) == Queries(s.trace) + 1
      && s2.activeResumeSession == None
      && (r.completeOk ==> s2.uploadId == None)
  {
    ResumeOldSessionMismatch(s, session, uploaded, r0, pauseAt0);
    var s1 := ResumeOldSessionSpec(s, session, Some(uploaded), r0, pauseAt0);
    var s1' := s1.(file := Some(a), log := s1.log + [FileReselected],
                   uploadId := Some(session.id), activeResumeSession := None);
    assert OnFileSelectedSpec(s1, Some(a), r, None) == UploadChunksSpec(s1', session.id, a, 0, uploaded, r, None);
    forall j: nat | 0 <= j < TotalChunks(a.size, ChunkSize)
      ensures !Halts(j, uploaded, s1'.paused, None, None)
    {
    }
    UploadChunksRunsToEnd(s1', session.id, a, 0, uploaded, r, None, uploaded);
    var sends := SendTrace(session.id, a.size, 0, TotalChunks(a.size, ChunkSize), uploaded);
    assert QueryFor(session.id, uploaded) == [];
    assert s1'.trace + [] == s1'.trace;
    WalkPrefixCounts(s1.trace, session.id, a.size, 0, TotalChunks(a.size, ChunkSize), uploaded, uploaded);
    TraceSnoc(s1.trace + sends, CompleteSession(session.id));
  }
}

