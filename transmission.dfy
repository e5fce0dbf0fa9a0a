/** What the transmission loop of the upload controller does, stated on values.

    The loop walks chunk indices upward from `from`.  At the head of each iteration it
    stops if the pause flag is set; it skips an index the uploaded-chunk list already
    holds; otherwise it sends that chunk.  A send whose request is rejected aborts the
    loop.  ToSend gives the indices sent in a stretch of the walk, LoopStop where the
    walk ends. */
module Transmission {
  import opened Wrappers
  import opened ChunkPlan

  /** Indices in [a, b) that `uploaded` does not hold, in the order the loop sends them. */
  function ToSend(a: nat, b: nat, uploaded: seq<int>): seq<nat>
    decreases b
  {
    if b <= a then []
    else ToSend(a, b - 1, uploaded) + (if (b - 1) in uploaded then [] else [b - 1])
  }

  /** Where the walk from an index ends. */
  datatype Stop =
    | Exhausted              // every index up to the chunk count was visited
    | PausedAt(index: nat)   // the pause flag was seen at the head of this iteration
    | RejectedAt(index: nat) // the request sending this chunk was rejected

  /** The loop head at `j` does not run to the next index: the pause flag is seen there
      (already set on entry, or set by a pause handled just before this head), or the
      chunk must be sent and its request is rejected. */
  predicate Halts(j: nat, uploaded: seq<int>, paused: bool, pauseAt: Option<nat>, rejectAt: Option<nat>)
  {
    paused || pauseAt == Some(j) || (j !in uploaded && rejectAt == Some(j))
  }

  /** The end of the walk from index i up to `total`, given the pause flag on entry,
      the loop head at which a pause click is handled, and the index whose send is rejected. */
  function LoopStop(i: nat, total: nat, uploaded: seq<int>, paused: bool,
                    pauseAt: Option<nat>, rejectAt: Option<nat>): Stop
    decreases total - i
  {
    if total <= i then Exhausted
    else if paused || pauseAt == Some(i) then PausedAt(i)
    else if i !in uploaded && rejectAt == Some(i) then RejectedAt(i)
    else LoopStop(i + 1, total, uploaded, paused, pauseAt, rejectAt)
  }

  /** First index the walk did not complete: the chunk count when it ran out of indices.
      A walk that never started (from beyond the count) completed nothing, which ToSend
      gives as the empty stretch either way. */
  function StopIndex(stop: Stop, total: nat): nat
  {
    match stop
    case Exhausted => total
    case PausedAt(k) => k
    case RejectedAt(k) => k
  }

  /** Progress after the walk over [a, b), starting from `before`: the loop writes
      Percent(i + 1, total) after sending chunk i and leaves progress alone on a skip. */
  function ProgressAt(a: nat, b: nat, uploaded: seq<int>, total: nat, before: nat): nat
    decreases b
  {
    if b <= a then before
    else if (b - 1) in uploaded then ProgressAt(a, b - 1, uploaded, total, before)
    else Percent(b, total)
  }

  /** The progress values the loop writes, one per sent chunk, in order. */
  function ProgressWrites(sent: seq<nat>, total: nat): (w: seq<nat>)
    ensures |w| == |sent|
    decreases |sent|
  {
    if sent == [] then []
    else ProgressWrites(sent[..|sent| - 1], total) + [Percent(sent[|sent| - 1] + 1, total)]
  }

  // ---------------------------------------------------------------------------
  // What gets sent

  /** The loop sends exactly the indices in [a, b) that are not already uploaded. */
  lemma {:induction false} ToSendMembers(a: nat, b: nat, uploaded: seq<int>)
    ensures forall x: nat :: x in ToSend(a, b, uploaded) <==> a <= x < b && x !in uploaded
    decreases b
  {
    if b > a {
      ToSendMembers(a, b - 1, uploaded);
    }
  }

  /** ... in strictly increasing order, so none twice. */
  lemma {:induction false} ToSendIncreasing(a: nat, b: nat, uploaded: seq<int>)
    ensures forall p, q :: 0 <= p < q < |ToSend(a, b, uploaded)| ==>
              ToSend(a, b, uploaded)[p] < ToSend(a, b, uploaded)[q]
    ensures forall p :: 0 <= p < |ToSend(a, b, uploaded)| ==> a <= ToSend(a, b, uploaded)[p] < b
    decreases b
  {
    if b > a {
      ToSendIncreasing(a, b - 1, uploaded);
    }
  }

  /** Walking [a, k) and then [k, b) sends what walking [a, b) sends. */
  lemma {:induction false} ToSendSplit(a: nat, k: nat, b: nat, uploaded: seq<int>)
    requires a <= k <= b
    ensures ToSend(a, k, uploaded) + ToSend(k, b, uploaded) == ToSend(a, b, uploaded)
    decreases b
  {
    if k < b {
      ToSendSplit(a, k, b - 1, uploaded);
    }
  }

  /** When every index of [a, b) is already uploaded nothing is sent. */
  lemma {:induction false} ToSendAllUploaded(a: nat, b: nat, uploaded: seq<int>)
    requires forall i: nat :: a <= i < b ==> i in uploaded
    ensures ToSend(a, b, uploaded) == []
    decreases b
  {
    if b > a {
      ToSendAllUploaded(a, b - 1, uploaded);
    }
  }

  /** Two stretches that meet at k share no index: a chunk sent before a pause at k is
      never sent again by a walk resumed at k, whatever the second uploaded list says. */
  lemma ToSendDisjoint(a: nat, k: nat, b: nat, u1: seq<int>, u2: seq<int>)
    ensures forall x :: x in ToSend(a, k, u1) ==> x !in ToSend(k, b, u2)
  {
    ToSendIncreasing(a, k, u1);
    ToSendIncreasing(k, b, u2);
    forall x | x in ToSend(a, k, u1)
      ensures x !in ToSend(k, b, u2)
    {
      var p :| 0 <= p < |ToSend(a, k, u1)| && ToSend(a, k, u1)[p] == x;
    }
  }

  // ---------------------------------------------------------------------------
  // Where the walk ends

  /** The walk ends at the FIRST head that halts: it runs out of indices exactly when no
      head in [i, total) halts; a pause at k means the flag was seen there and no earlier
      head halted; a rejection at k means k had to be sent, its request was rejected,
      no pause was seen at k, and no earlier head halted. */
  lemma {:induction false} LoopStopIsFirstHalt(i: nat, total: nat, uploaded: seq<int>, paused: bool,
                                               pauseAt: Option<nat>, rejectAt: Option<nat>)
    ensures var s := LoopStop(i, total, uploaded, paused, pauseAt, rejectAt);
      && (s == Exhausted <==> forall j: nat :: i <= j < total ==> !Halts(j, uploaded, paused, pauseAt, rejectAt))
      && (s.PausedAt? ==>
            && i <= s.index < total
            && (paused || pauseAt == Some(s.index))
            && forall j: nat :: i <= j < s.index ==> !Halts(j, uploaded, paused, pauseAt, rejectAt))
      && (s.RejectedAt? ==>
            && i <= s.index < total
            && !paused && pauseAt != Some(s.index)
            && s.index !in uploaded && rejectAt == Some(s.index)
            && forall j: nat :: i <= j < s.index ==> !Halts(j, uploaded, paused, pauseAt, rejectAt))
    decreases total - i
  {
    if i < total && !Halts(i, uploaded, paused, pauseAt, rejectAt) {
      LoopStopIsFirstHalt(i + 1, total, uploaded, paused, pauseAt, rejectAt);
    }
  }

  /** With no pause and no rejected request the walk visits every index. */
  lemma NoHaltRunsToEnd(i: nat, total: nat, uploaded: seq<int>)
    ensures LoopStop(i, total, uploaded, false, None, None) == Exhausted
  {
    LoopStopIsFirstHalt(i, total, uploaded, false, None, None);
  }

  /** A walk that ends at k only completed indices in [i, k]: its stop index never passes
      the chunk count, and never falls below the start when the start is a real index. */
  lemma StopIndexInRange(i: nat, total: nat, uploaded: seq<int>, paused: bool,
                         pauseAt: Option<nat>, rejectAt: Option<nat>)
    ensures var s := LoopStop(i, total, uploaded, paused, pauseAt, rejectAt);
      StopIndex(s, total) <= total
    ensures var s := LoopStop(i, total, uploaded, paused, pauseAt, rejectAt);
      i <= total ==> i <= StopIndex(s, total)
  {
    LoopStopIsFirstHalt(i, total, uploaded, paused, pauseAt, rejectAt);
  }

  // ---------------------------------------------------------------------------
  // Progress

  /** Along one walk the written progress values never decrease and each lies in [0, 100]. */
  lemma ProgressWritesMonotone(a: nat, b: nat, uploaded: seq<int>, total: nat)
    requires b <= total
    ensures var w := ProgressWrites(ToSend(a, b, uploaded), total);
      && (forall p, q :: 0 <= p <= q < |w| ==> w[p] <= w[q])
      && (forall p :: 0 <= p < |w| ==> w[p] <= 100)
  {
    ToSendIncreasing(a, b, uploaded);
    WritesOrdered(ToSend(a, b, uploaded), total);
    WritesBounded(ToSend(a, b, uploaded), total);
  }

  lemma WritesOrdered(sent: seq<nat>, total: nat)
    requires forall p, q :: 0 <= p < q < |sent| ==> sent[p] < sent[q]
    ensures var w := ProgressWrites(sent, total);
      forall p, q :: 0 <= p <= q < |w| ==> w[p] <= w[q]
  {
    var w := ProgressWrites(sent, total);
    forall p, q | 0 <= p <= q < |w|
      ensures w[p] <= w[q]
    {
      WriteAt(sent, total, p);
      WriteAt(sent, total, q);
      PercentMonotone(sent[p] + 1, sent[q] + 1, total);
    }
  }

  lemma WritesBounded(sent: seq<nat>, total: nat)
    requires forall p :: 0 <= p < |sent| ==> sent[p] < total
    ensures var w := ProgressWrites(sent, total);
      forall p :: 0 <= p < |w| ==> w[p] <= 100
  {
    var w := ProgressWrites(sent, total);
    forall p | 0 <= p < |w|
      ensures w[p] <= 100
    {
      WriteAt(sent, total, p);
      PercentAfterChunk(sent[p], total);
    }
  }

  lemma {:induction false} WriteAt(sent: seq<nat>, total: nat, p: nat)
    requires p < |sent|
    ensures ProgressWrites(sent, total)[p] == Percent(sent[p] + 1, total)
    decreases |sent|
  {
    if p < |sent| - 1 {
      WriteAt(sent[..|sent| - 1], total, p);
    }
  }

  /** The progress left after a walk is the value written for the last chunk sent, or the
      old value when nothing was sent. */
  lemma {:induction false} ProgressIsLastWrite(a: nat, b: nat, uploaded: seq<int>, total: nat, before: nat)
    ensures var sent := ToSend(a, b, uploaded);
      ProgressAt(a, b, uploaded, total, before)
        == if sent == [] then before else Percent(sent[|sent| - 1] + 1, total)
    decreases b
  {
    if b > a && (b - 1) in uploaded {
      ProgressIsLastWrite(a, b - 1, uploaded, total, before);
    }
  }

  /** Once the walk has sent a chunk, the progress field never decreases from one loop head
      to a later one: a later head's value is the write for a later (larger) chunk. */
  lemma ProgressAtMonotone(a: nat, i: nat, j: nat, uploaded: seq<int>, total: nat, before: nat)
    requires a <= i <= j
    requires ToSend(a, i, uploaded) != []
    ensures ProgressAt(a, i, uploaded, total, before) <= ProgressAt(a, j, uploaded, total, before)
  {
    var head, tail := ToSend(a, i, uploaded), ToSend(i, j, uploaded);
    ProgressIsLastWrite(a, i, uploaded, total, before);
    ProgressIsLastWrite(a, j, uploaded, total, before);
    ToSendSplit(a, i, j, uploaded);
    var whole := ToSend(a, j, uploaded);
    assert whole == head + tail;
    var li := head[|head| - 1];
    var lj := whole[|whole| - 1];
    if tail == [] {
      assert lj == li;
    } else {
      ToSendIncreasing(a, i, uploaded);
      ToSendIncreasing(i, j, uploaded);
      assert lj == tail[|tail| - 1];
      assert li < i <= lj;
    }
    PercentMonotone(li + 1, lj + 1, total);
  }

  /** The progress left after a walk is the last of the values ProgressWrites lists for it,
      or the old value when the walk sent nothing. */
  lemma ProgressIsLastOfWrites(a: nat, b: nat, uploaded: seq<int>, total: nat, before: nat)
    ensures var w := ProgressWrites(ToSend(a, b, uploaded), total);
      ProgressAt(a, b, uploaded, total, before) == if w == [] then before else w[|w| - 1]
  {
    var sent := ToSend(a, b, uploaded);
    ProgressIsLastWrite(a, b, uploaded, total, before);
    if sent != [] {
      WriteAt(sent, total, |sent| - 1);
    }
  }

  /** After a walk that visited every index, progress is 100 exactly when the last chunk
      was sent by this walk; when the last chunk was already uploaded and something else
      was sent, it stays below 100. */
  lemma ProgressAfterWalk(a: nat, total: nat, uploaded: seq<int>, before: nat)
    requires a < total
    ensures (total - 1) !in uploaded ==> ProgressAt(a, total, uploaded, total, before) == 100
    ensures ToSend(a, total, uploaded) != [] && (total - 1) in uploaded ==>
              ProgressAt(a, total, uploaded, total, before) < 100
  {
    var sent := ToSend(a, total, uploaded);
    ProgressIsLastWrite(a, total, uploaded, total, before);
    ToSendIncreasing(a, total, uploaded);
    ToSendMembers(a, total, uploaded);
    if sent != [] {
      var last := sent[|sent| - 1];
      assert last in sent;
      PercentAfterChunk(last, total);
    }
  }
}
