/** How the scrapers share out their work before starting threads: the
    course codes cut into one chunk per thread, and the faculties launched
    in batches of four. Only the index arithmetic is modelled; the threads
    themselves are not. */
module WorkPartition {

  /** The lists concatenated in order. */
  function Flatten<T>(xs: seq<seq<T>>): seq<T> {
    if xs == [] then [] else Flatten(xs[..|xs| - 1]) + xs[|xs| - 1]
  }

  // ---------------------------------------------------------------- split_list_into_chunks

  /** Where chunk `i` starts: every earlier chunk has `len / n` items, and
      the first `len % n` of them one more. */
  function ChunkStart(len: nat, n: nat, i: nat): nat
    requires n > 0
  {
    i * (len / n) + if i < len % n then i else len % n
  }

  /** The chunk boundaries grow by the chunk's size and end at the length. */
  lemma ChunkBounds(len: nat, n: nat, i: nat)
    requires n > 0 && i < n
    ensures ChunkStart(len, n, i + 1) == ChunkStart(len, n, i) + len / n + (if i < len % n then 1 else 0)
    ensures ChunkStart(len, n, i + 1) <= ChunkStart(len, n, n) == len
    ensures 0 <= len / n && ChunkStart(len, n, i) <= ChunkStart(len, n, i + 1) <= len
  {
    var q, r := len / n, len % n;
    assert (i + 1) * q == i * q + q;
    assert len == n * q + r;
    assert (i + 1) * q <= n * q by {
      MulLe(i + 1, n, q);
    }
  }

  lemma MulLe(a: nat, b: nat, c: nat)
    requires a <= b
    ensures a * c <= b * c
  {
  }

  /** Chunk `i`: the slice between its boundaries. */
  function Chunk<T>(lst: seq<T>, n: nat, i: nat): (r: seq<T>)
    requires n > 0 && i < n
    ensures |r| == |lst| / n + (if i < |lst| % n then 1 else 0)
  {
    ChunkBounds(|lst|, n, i);
    var start, end := ChunkStart(|lst|, n, i), ChunkStart(|lst|, n, i + 1);
    lst[start..end]
  }

  /** `split_list_into_chunks(lst, num_chunks)`: exactly `n` chunks, chunk
      `i` the slice between its boundaries, so that the first `len % n`
      chunks have `len / n + 1` items and the others `len / n`, and together
      they are the list. */
  method SplitIntoChunks<T>(lst: seq<T>, n: nat) returns (chunks: seq<seq<T>>)
    requires n > 0
    ensures |chunks| == n
    ensures forall i :: 0 <= i < n ==> chunks[i] == Chunk(lst, n, i)
    ensures Flatten(chunks) == lst
  {
    var chunkSize := |lst| / n;
    var remainder := |lst| % n;
    chunks := [];
    var start := 0;
    for i := 0 to n
      invariant |chunks| == i && start == ChunkStart(|lst|, n, i) <= |lst|
      invariant forall k :: 0 <= k < i ==> chunks[k] == Chunk(lst, n, k)
      invariant Flatten(chunks) == lst[..start]
    {
      ChunkBounds(|lst|, n, i);
      var end := start + chunkSize + (if i < remainder then 1 else 0);
      assert end == ChunkStart(|lst|, n, i + 1);
      assert lst[start..end] == Chunk(lst, n, i);
      ChunksStep(lst, n, i, chunks);
      chunks := chunks + [lst[start..end]];
      start := end;
    }
    ChunkBounds(|lst|, n, n - 1);
    assert lst[..start] == lst;
  }

  /** The chunks so far, with chunk `i` after them, run up to chunk `i`'s end. */
  lemma ChunksStep<T>(lst: seq<T>, n: nat, i: nat, chunks: seq<seq<T>>)
    requires n > 0 && i < n
    requires ChunkStart(|lst|, n, i) <= |lst| && Flatten(chunks) == lst[..ChunkStart(|lst|, n, i)]
    ensures ChunkStart(|lst|, n, i + 1) <= |lst| && Flatten(chunks + [Chunk(lst, n, i)]) == lst[..ChunkStart(|lst|, n, i + 1)]
  {
    ChunkBounds(|lst|, n, i);
    var start, end := ChunkStart(|lst|, n, i), ChunkStart(|lst|, n, i + 1);
    assert (chunks + [Chunk(lst, n, i)])[..|chunks|] == chunks;
    assert lst[..end] == lst[..start] + lst[start..end];
  }

  // ---------------------------------------------------------------- faculty batches

  /** The numbers `a` to `b - 1`. */
  function Range(a: nat, b: nat): (r: seq<nat>)
    requires a <= b
    ensures |r| == b - a && forall k :: 0 <= k < |r| ==> r[k] == a + k
  {
    seq(b - a, k requires 0 <= k < b - a => a + k)
  }

  /** The number of batches, `ceil(count / 4)`. */
  function BatchCount(count: nat): nat {
    (count + 3) / 4
  }

  /** Batch `j` launches the faculties `4j` up to `4j + 3`, and none past the
      last. */
  function Batch(count: nat, j: nat): seq<nat>
    requires j < BatchCount(count)
  {
    Range(4 * j, if 4 * j + 4 <= count then 4 * j + 4 else count)
  }

  /** The batch loop of `scrap_course_plans`: for each batch, indices
      `i + 4j` for `i` below four, stopping at the first that reaches the
      faculty count. */
  method Batches(count: nat) returns (batches: seq<seq<nat>>)
    ensures |batches| == BatchCount(count)
    ensures forall j :: 0 <= j < |batches| ==> batches[j] == Batch(count, j) && 1 <= |batches[j]| <= 4
  {
    batches := [];
    for j := 0 to BatchCount(count)
      invariant |batches| == j
      invariant forall k :: 0 <= k < j ==> batches[k] == Batch(count, k) && 1 <= |batches[k]| <= 4
    {
      var threads: seq<nat> := [];
      var i := 0;
      while i < 4
        invariant 0 <= i <= 4 && 4 * j + i <= count + 3
        invariant threads == Range(4 * j, 4 * j + i) && 4 * j + i <= count
        decreases 4 - i
      {
        var currentIndex := i + j * 4;
        if currentIndex >= count {
          break;
        }
        threads := threads + [currentIndex];
        i := i + 1;
      }
      assert threads == Batch(count, j);
      batches := batches + [threads];
    }
  }

  /** Every faculty index below the count is launched in exactly one batch:
      the batch of its quotient by four. */
  lemma BatchesPartition(count: nat, x: nat)
    requires x < count
    ensures x / 4 < BatchCount(count) && x in Batch(count, x / 4)
    ensures forall j :: 0 <= j < BatchCount(count) && j != x / 4 ==> x !in Batch(count, j)
  {
    assert Batch(count, x / 4)[x - 4 * (x / 4)] == x;
  }

  /** The batches together launch every index once, in order. */
  lemma {:induction false} BatchesFlatten(count: nat, m: nat)
    requires m <= BatchCount(count)
    ensures Flatten(seq(m, j requires 0 <= j < m => Batch(count, j))) == Range(0, if 4 * m <= count then 4 * m else count)
  {
    if m > 0 {
      var bs := seq(m, j requires 0 <= j < m => Batch(count, j));
      BatchesFlatten(count, m - 1);
      assert bs[..m - 1] == seq(m - 1, j requires 0 <= j < m - 1 => Batch(count, j));
    }
  }
}
