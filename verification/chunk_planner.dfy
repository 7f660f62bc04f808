/**
 * The work planner of the SoRer driver: it splits the requested byte range of
 * the file into one `(start, len)` chunk per worker thread, extending every
 * chunk but the last so that the line cut by the next chunk's start is read
 * in full by the earlier chunk.
 *
 * The file is a byte sequence; seeking to an offset and reading until a
 * newline becomes the pure function `ReadUntilNewline`.
 */
module ChunkPlanner {

  const NEWLINE: bv8 := 10

  /** `u64::MAX`, the value of `len` that means "to the end of the file". */
  const U64_MAX: int := 0xFFFF_FFFF_FFFF_FFFF

  type U64 = x: int | 0 <= x <= U64_MAX

  /** One worker's byte range: it starts at `start` and spans `len` bytes. */
  datatype Chunk = Chunk(start: nat, len: nat)

  /** The offset one past the last byte of a chunk. */
  function End(w: Chunk): nat
  {
    w.start + w.len
  }

  /** No newline byte of `file` lies at an offset in `[lo, hi)`. */
  predicate NoNewlineIn(file: seq<bv8>, lo: int, hi: int)
  {
    forall k :: lo <= k < hi && 0 <= k < |file| ==> file[k] != NEWLINE
  }

  /**
   * What `read_until(b'\n', ..)` appends after a seek to `pos`: the bytes
   * from `pos` up to and including the first newline, or up to the end of
   * the file when there is none; nothing when `pos` is at or past the end.
   */
  function ReadUntilNewline(file: seq<bv8>, pos: nat): (line: seq<bv8>)
    decreases |file| - pos
    ensures pos >= |file| ==> line == []
    ensures pos < |file| ==> 0 < |line| <= |file| - pos && line == file[pos..pos + |line|]
    ensures NoNewlineIn(file, pos, pos + |line| - 1)
    ensures pos < |file| ==> line[|line| - 1] == NEWLINE || pos + |line| == |file|
  {
    if pos >= |file| then []
    else if file[pos] == NEWLINE then [NEWLINE]
    else [file[pos]] + ReadUntilNewline(file, pos + 1)
  }

  /**
   * The number of bytes to read. With the sentinel it is the file size minus
   * `from`, computed in `u64` arithmetic: in a release build a `from` past
   * the end of the file wraps around.
   */
  function NumChars(fileSize: U64, from: U64, len: U64): (n: U64)
    ensures len != U64_MAX ==> n == len
    ensures len == U64_MAX && from <= fileSize ==> n == fileSize - from
    ensures len == U64_MAX && from > fileSize ==> n == fileSize - from + U64_MAX + 1
  {
    if len == U64_MAX then (fileSize - from) % (U64_MAX + 1) else len
  }

  /** The ceiling of `numChars / numThreads`. */
  function CeilDiv(numChars: nat, numThreads: nat): (step: nat)
    requires numThreads > 0
    ensures step * numThreads >= numChars
    ensures (step - 1) * numThreads < numChars
  {
    var q := (numChars + numThreads - 1) / numThreads;
    var rem := (numChars + numThreads - 1) % numThreads;
    assert numChars + numThreads - 1 == q * numThreads + rem;
    assert (q - 1) * numThreads == q * numThreads - numThreads;
    q
  }

  /** The number of bytes each thread is first given. */
  function Step(fileSize: U64, from: U64, len: U64, numThreads: nat): nat
    requires numThreads > 0
  {
    CeilDiv(NumChars(fileSize, from, len), numThreads)
  }

  /**
   * The plan in closed form: chunk `i` starts at `from + i * step`; every
   * chunk but the last spans `step` bytes plus the bytes read at the next
   * chunk's start, plus one; the last chunk spans `step` bytes.
   */
  function Plan(file: seq<bv8>, from: nat, step: nat, n: nat): (plan: seq<Chunk>)
  {
    seq(n, i requires 0 <= i < n => PlanEntry(file, from, step, n, i))
  }

  /** Chunk `i` of the plan. */
  function PlanEntry(file: seq<bv8>, from: nat, step: nat, n: nat, i: nat): Chunk
  {
    var start := from + i * step;
    Chunk(start, if i + 1 < n then step + |ReadUntilNewline(file, start + step)| + 1 else step)
  }

  /**
   * The planning loop: the first chunk is pushed on its own, then each later
   * chunk is pushed and the previous one is extended by the line read at the
   * new chunk's start; the read buffer is cleared after every extension.
   */
  method PlanWork(file: seq<bv8>, from: U64, len: U64, numThreads: nat) returns (work: seq<Chunk>)
    requires |file| <= U64_MAX
    requires numThreads > 0
    ensures work == Plan(file, from, Step(|file|, from, len, numThreads), numThreads)
  {
    var numChars := NumChars(|file|, from, len);
    var step := CeilDiv(numChars, numThreads);
    ghost var plan := Plan(file, from, step, numThreads);
    PlanShape(file, from, step, numThreads);
    work := [Chunk(from, step)];
    var soFar: nat := from;
    var buffer: seq<bv8> := [];
    for i := 1 to numThreads
      invariant |work| == i
      invariant soFar == plan[i - 1].start
      invariant buffer == []
      invariant forall j :: 0 <= j < i - 1 ==> work[j] == plan[j]
      invariant work[i - 1] == Chunk(soFar, step)
    {
      soFar := soFar + step;
      buffer := buffer + ReadUntilNewline(file, soFar);
      work := work + [Chunk(soFar, step)];
      work := work[i - 1 := work[i - 1].(len := work[i - 1].len + |buffer| + 1)];
      buffer := [];
      assert work[i - 1] == plan[i - 1] by {
        assert plan[i - 1] == PlanEntry(file, from, step, numThreads, i - 1);
      }
    }
    assert work[numThreads - 1] == plan[numThreads - 1] by {
      assert plan[numThreads - 1] == PlanEntry(file, from, step, numThreads, numThreads - 1);
    }
  }

  /**
   * The plan has one chunk per thread, the first starts at `from`, and each
   * later one starts `step` bytes after the one before it.
   */
  lemma PlanShape(file: seq<bv8>, from: nat, step: nat, n: nat)
    requires n > 0
    ensures |Plan(file, from, step, n)| == n
    ensures Plan(file, from, step, n)[0].start == from
    ensures forall i :: 0 < i < n ==> Plan(file, from, step, n)[i].start == Plan(file, from, step, n)[i - 1].start + step
  {
    var plan := Plan(file, from, step, n);
    assert plan[0].start == from + 0 * step;
    forall i | 0 < i < n
      ensures plan[i].start == plan[i - 1].start + step
    {
      assert i * step == (i - 1) * step + step;
    }
  }

  /** With a positive step, chunk starts are strictly increasing. */
  lemma StartsIncrease(file: seq<bv8>, from: nat, step: nat, n: nat, i: nat, j: nat)
    requires step > 0 && i < j < n
    ensures Plan(file, from, step, n)[i].start < Plan(file, from, step, n)[j].start
  {
  }

  /** The last chunk keeps exactly `step` bytes; every earlier one gains at least one byte. */
  lemma ChunkLengths(file: seq<bv8>, from: nat, step: nat, n: nat)
    requires n > 0
    ensures Plan(file, from, step, n)[n - 1].len == step
    ensures forall i :: 0 <= i < n - 1 ==> Plan(file, from, step, n)[i].len >= step + 1
  {
  }

  /**
   * The line cut by chunk `i`'s start is read in full by chunk `i - 1`:
   * either chunk `i - 1` ends two bytes past the first newline at or after
   * that start (the newline itself and one byte more), or there is no such
   * newline and it ends one byte past the end of the file (or past the start,
   * when that lies beyond the end of the file).
   */
  lemma SplitLineInPreviousChunk(file: seq<bv8>, from: nat, step: nat, n: nat, i: nat)
    requires 0 < i < n
    ensures var plan := Plan(file, from, step, n);
            var s := plan[i].start;
            var e := End(plan[i - 1]);
            || (s <= e - 2 < |file| && file[e - 2] == NEWLINE && NoNewlineIn(file, s, e - 2))
            || (e - 1 == (if s < |file| then |file| else s) && NoNewlineIn(file, s, |file|))
  {
    var plan := Plan(file, from, step, n);
    PlanShape(file, from, step, n);
    var s := plan[i].start;
    var line := ReadUntilNewline(file, s);
    assert End(plan[i - 1]) == s + |line| + 1;
  }

  /** The chunk an offset falls in when chunks are `step` bytes apart. */
  lemma ChunkIndexBounds(offset: nat, step: nat, numChars: nat, n: nat)
    requires step > 0 && offset < numChars <= n * step
    ensures offset / step < n
    ensures (offset / step) * step <= offset < (offset / step) * step + step
  {
    var i := offset / step;
    assert offset == i * step + offset % step;
  }

  /** Offset `p` lies in chunk `i` when it is within `step` bytes of that chunk's start. */
  lemma {:induction false} OffsetInChunk(file: seq<bv8>, from: nat, step: nat, n: nat, i: nat, p: nat)
    requires i < n && from + i * step <= p < from + i * step + step
    ensures Plan(file, from, step, n)[i].start <= p < End(Plan(file, from, step, n)[i])
  {
    assert Plan(file, from, step, n)[i] == PlanEntry(file, from, step, n, i);
  }

  /**
   * With at least `numChars` bytes in `n` steps, every offset in
   * `[from, from + numChars)` lies in some chunk.
   */
  lemma PlanCovers(file: seq<bv8>, from: nat, step: nat, n: nat, numChars: nat, p: nat)
    requires step * n >= numChars && from <= p < from + numChars
    ensures exists i :: 0 <= i < n && Plan(file, from, step, n)[i].start <= p < End(Plan(file, from, step, n)[i])
  {
    ChunkIndexBounds(p - from, step, numChars, n);
    OffsetInChunk(file, from, step, n, (p - from) / step, p);
  }

  /**
   * The chunks cover the requested range without a gap: every offset in
   * `[from, from + numChars)` lies in some chunk.
   */
  lemma PlanCoversRange(file: seq<bv8>, from: U64, len: U64, n: nat, p: nat)
    requires |file| <= U64_MAX && n > 0
    requires from <= p < from + NumChars(|file|, from, len)
    ensures var plan := Plan(file, from, Step(|file|, from, len, n), n);
            exists i :: 0 <= i < n && plan[i].start <= p < End(plan[i])
  {
    PlanCovers(file, from, Step(|file|, from, len, n), n, NumChars(|file|, from, len), p);
  }

  /**
   * An empty request (`len` of 0, or the sentinel with `from` at the end of
   * the file) gives a step of 0: every chunk starts at `from`, and every
   * chunk but the last still spans the line at `from` plus one byte.
   */
  lemma EmptyRequestPlan(file: seq<bv8>, from: U64, len: U64, n: nat)
    requires |file| <= U64_MAX && n > 0
    requires NumChars(|file|, from, len) == 0
    ensures Step(|file|, from, len, n) == 0
    ensures var plan := Plan(file, from, 0, n);
            && (forall i :: 0 <= i < n ==> plan[i].start == from)
            && (forall i :: 0 <= i < n - 1 ==> plan[i].len == |ReadUntilNewline(file, from)| + 1)
            && plan[n - 1].len == 0
  {
    var plan := Plan(file, from, 0, n);
    forall i | 0 <= i < n
      ensures plan[i].start == from
    {
      assert i * 0 == 0;
    }
  }
}
