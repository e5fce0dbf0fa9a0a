/** Chunk planning and progress arithmetic of the upload controller.

    A file of `size` bytes is cut into chunks of `c` bytes; chunk `i` covers the
    half-open byte range [ChunkStart(i, c), ChunkEnd(i, size, c)).  The controller
    uses a fixed chunk size of 100 MiB (ChunkSize). */
module ChunkPlan {

  /** The controller's chunk size: 100 MiB. */
  const ChunkSize: nat := 100 * 1024 * 1024

  /** Number of chunks, the ceiling of size / c. */
  function TotalChunks(size: nat, c: nat): (n: nat)
    requires c > 0
    ensures size <= n * c
    ensures n > 0 ==> (n - 1) * c < size
    ensures n == 0 <==> size == 0
  {
    var n := (size + c - 1) / c;
    DivBounds(size + c - 1, c);
    n
  }

  /** First byte of chunk i. */
  function ChunkStart(i: nat, c: nat): nat
  {
    i * c
  }

  /** One past the last byte of chunk i: the chunk is cut short at the end of the file. */
  function ChunkEnd(i: nat, size: nat, c: nat): (e: nat)
    ensures e <= size && e <= ChunkStart(i, c) + c
    ensures e == size || e == ChunkStart(i, c) + c
  {
    if i * c + c < size then i * c + c else size
  }

  /** Integer percentage of `done` out of `total`; 0 by convention when there are no chunks. */
  function Percent(done: nat, total: nat): nat
  {
    if total == 0 then 0 else done * 100 / total
  }

  lemma DivBounds(x: nat, c: nat)
    requires c > 0
    ensures (x / c) * c <= x < (x / c) * c + c
  {
  }

  lemma MulMono(a: nat, b: nat, c: nat)
    requires a <= b
    ensures a * c <= b * c
  {
  }

  lemma MulStrictCancel(a: nat, b: nat, c: nat)
    ensures a * c < b * c ==> a < b
  {
    if b <= a {
      MulMono(b, a, c);
    }
  }

  /** Every chunk below TotalChunks is non-empty and lies inside the file; consecutive
      chunks are contiguous; the first starts at 0 and the last ends at the file's end. */
  lemma ChunksContiguous(size: nat, c: nat, i: nat)
    requires c > 0
    requires i < TotalChunks(size, c)
    ensures ChunkStart(i, c) < ChunkEnd(i, size, c) <= size
    ensures i + 1 < TotalChunks(size, c) ==> ChunkEnd(i, size, c) == ChunkStart(i + 1, c)
    ensures i + 1 == TotalChunks(size, c) ==> ChunkEnd(i, size, c) == size
  {
    var n := TotalChunks(size, c);
    MulMono(i, n - 1, c);
    if i + 1 < n {
      MulMono(i + 1, n - 1, c);
      assert i * c + c == (i + 1) * c;
    } else {
      assert i * c + c == n * c;
    }
  }

  /** The chunks cover exactly [0, size) and do not overlap: every byte of the file lies
      in exactly one chunk (the one numbered b / c), and no chunk holds a byte past the end. */
  lemma ChunksCoverFile(size: nat, c: nat, b: nat)
    requires c > 0
    ensures b < size ==> b / c < TotalChunks(size, c)
                         && ChunkStart(b / c, c) <= b < ChunkEnd(b / c, size, c)
    ensures forall i: nat :: ChunkStart(i, c) <= b < ChunkEnd(i, size, c) ==> i == b / c && b < size
  {
    DivBounds(b, c);
    if b < size {
      ByteInItsChunk(size, c, b);
    }
    forall i: nat | ChunkStart(i, c) <= b < ChunkEnd(i, size, c)
      ensures i == b / c
    {
      OnlyChunkOfByte(c, b, i);
    }
  }

  lemma ByteInItsChunk(size: nat, c: nat, b: nat)
    requires c > 0 && b < size
    requires (b / c) * c <= b < (b / c) * c + c
    ensures b / c < TotalChunks(size, c)
  {
    MulStrictCancel(b / c, TotalChunks(size, c), c);
  }

  lemma OnlyChunkOfByte(c: nat, b: nat, i: nat)
    requires c > 0
    requires (b / c) * c <= b < (b / c) * c + c
    requires i * c <= b < i * c + c
    ensures i == b / c
  {
    var k := b / c;
    assert i * c + c == (i + 1) * c;
    assert k * c + c == (k + 1) * c;
    MulStrictCancel(k, i + 1, c);
    MulStrictCancel(i, k + 1, c);
  }

  /** An empty file has no chunks. */
  lemma EmptyFileHasNoChunks(c: nat)
    requires c > 0
    ensures TotalChunks(0, c) == 0
  {
  }

  /** Each value the transmission loop writes, after sending chunk i, lies in [0, 100];
      it is 100 exactly when i is the last chunk, and it is at least 1 once at least
      one hundredth of the chunks is done (so always when there are at most 100 chunks). */
  lemma PercentAfterChunk(i: nat, total: nat)
    requires i < total
    ensures Percent(i + 1, total) <= 100
    ensures Percent(i + 1, total) == 100 <==> i + 1 == total
    ensures total <= (i + 1) * 100 ==> 1 <= Percent(i + 1, total)
  {
    var p := (i + 1) * 100 / total;
    DivBounds((i + 1) * 100, total);
    assert p * total + total == (p + 1) * total;
    MulMono(i + 1, total, 100);
    assert (i + 1) * 100 <= 100 * total;
    MulStrictCancel(p, 101, total);
    MulStrictCancel(1, p + 1, total);
    if i + 1 < total {
      MulMono(i + 1, total - 1, 100);
      assert (i + 1) * 100 < 100 * total;
      MulStrictCancel(p, 100, total);
    } else {
      MulStrictCancel(100, p + 1, total);
    }
  }

  /** Progress never decreases as more chunks are done. */
  lemma PercentMonotone(a: nat, b: nat, total: nat)
    requires a <= b
    ensures Percent(a, total) <= Percent(b, total)
  {
    if total > 0 {
      MulMono(a, b, 100);
      DivBounds(a * 100, total);
      DivBounds(b * 100, total);
      var pa, pb := a * 100 / total, b * 100 / total;
      assert pb * total + total == (pb + 1) * total;
      MulStrictCancel(pa, pb + 1, total);
    }
  }
}
