/** The fixed-stride character chunker of backend/utils/text_splitter.py:
    chunk k starts at k * (chunk_size - overlap) and is at most chunk_size
    characters long. */
module TextSplitter {
  import opened Sequences


  /** Python's reading of a slice bound against a sequence of length `len`:
      a negative bound counts from the end, and the result is clamped. */
  function SliceBound(i: int, len: nat): (b: nat)
    ensures b <= len
  {
    if i < 0 then (if len + i < 0 then 0 else len + i)
    else if i > len then len
    else i
  }

  /** Python `s[i:j]`. */
  function PySlice(s: string, i: int, j: int): (r: string)
    ensures |r| <= |s|
  {
    var a, b := SliceBound(i, |s|), SliceBound(j, |s|);
    if a < b then s[a..b] else []
  }

  function Min(a: int, b: int): int {
    if a <= b then a else b
  }

  /** Value of `start` after k iterations: k strides of `step`. */
  function Offset(k: nat, step: int): int {
    if k == 0 then 0 else Offset(k - 1, step) + step
  }

  lemma {:induction false} OffsetIsProduct(k: nat, step: int)
    ensures Offset(k, step) == k * step
  {
    if k > 0 {
      OffsetIsProduct(k - 1, step);
    }
  }

  lemma {:induction false} OffsetMonotone(i: nat, j: nat, step: int)
    requires i <= j && step >= 0
    ensures 0 <= Offset(i, step) <= Offset(j, step)
    decreases j
  {
    if i < j {
      OffsetMonotone(i, j - 1, step);
    } else if i > 0 {
      OffsetMonotone(i - 1, i - 1, step);
    }
  }

  /** The chunk the loop appends in iteration k. */
  function ChunkAt(text: string, chunkSize: int, overlap: int, k: nat): string {
    var start := Offset(k, chunkSize - overlap);
    PySlice(text, start, Min(start + chunkSize, |text|))
  }

  /** ceil(len / step). */
  function NumChunks(len: nat, step: int): nat
    requires step > 0
  {
    (len + step - 1) / step
  }

  /** The loop `while start < len(text)` exits: either there is nothing to
      split or every iteration advances `start`. */
  predicate Terminates(len: nat, chunkSize: int, overlap: int) {
    len == 0 || overlap < chunkSize
  }

  lemma NumChunksBounds(len: nat, step: int)
    requires step > 0
    ensures var n := NumChunks(len, step);
      n * step >= len && (len > 0 ==> n >= 1 && (n - 1) * step < len)
  {
    var q, r := (len + step - 1) / step, (len + step - 1) % step;
    assert len + step - 1 == q * step + r;
    assert q * step == len + step - 1 - r;
  }

  lemma MulMono(x: int, y: int, b: int)
    requires x <= y && b >= 0
    ensures x * b <= y * b
  {
    assert y * b - x * b == (y - x) * b;
  }

  /** The loop ran n times: it stopped at the first k with k * step >= len. */
  lemma CountFromBounds(len: nat, step: int, n: nat)
    requires step > 0 && len > 0
    requires Offset(n, step) >= len
    requires n > 0 ==> Offset(n - 1, step) < len
    ensures n == NumChunks(len, step)
  {
    NumChunksBounds(len, step);
    var m := NumChunks(len, step);
    OffsetIsProduct(n, step);
    if n > 0 {
      OffsetIsProduct(n - 1, step);
    }
    if n < m {
      MulMono(n, m - 1, step);
      assert false;
    } else if n > m {
      MulMono(m, n - 1, step);
      assert false;
    }
  }

  /** `split_text_into_chunks(text, chunk_size, overlap)`. */
  method SplitTextIntoChunks(text: string, chunkSize: int, overlap: int) returns (chunks: seq<string>)
    requires Terminates(|text|, chunkSize, overlap)
    ensures |text| == 0 ==> chunks == []
    ensures |text| > 0 ==> |chunks| == NumChunks(|text|, chunkSize - overlap)
    ensures forall k :: 0 <= k < |chunks| ==> chunks[k] == ChunkAt(text, chunkSize, overlap, k)
  {
    chunks := [];
    var start := 0;
    var step := chunkSize - overlap;
    while start < |text|
      invariant start == Offset(|chunks|, step)
      invariant |text| == 0 ==> chunks == []
      invariant |chunks| > 0 ==> Offset(|chunks| - 1, step) < |text|
      invariant forall k :: 0 <= k < |chunks| ==> chunks[k] == ChunkAt(text, chunkSize, overlap, k)
      decreases |text| - start
    {
      var end := Min(start + chunkSize, |text|);
      chunks := chunks + [PySlice(text, start, end)];
      start := start + step;
    }
    if |text| > 0 {
      CountFromBounds(|text|, step, |chunks|);
    }
  }

  /** With a non-positive stride and non-empty text the loop guard holds
      in every iteration k, so the loop never ends. */
  lemma NoProgressWithoutStride(text: string, chunkSize: int, overlap: int, k: nat)
    requires |text| > 0 && overlap >= chunkSize
    ensures k * (chunkSize - overlap) < |text|
  {
    MulMono(0, k, overlap - chunkSize);
  }

  /** For a positive chunk size, chunk k is the plain slice of the text from
      `k * step` to `min(k * step + chunk_size, len)`, and no longer than
      `chunk_size`. */
  lemma ChunkIsSlice(text: string, chunkSize: int, overlap: int, k: nat)
    requires 0 < chunkSize && overlap < chunkSize
    requires k * (chunkSize - overlap) < |text|
    ensures var start := k * (chunkSize - overlap);
      ChunkAt(text, chunkSize, overlap, k) == text[start..Min(start + chunkSize, |text|)]
    ensures |ChunkAt(text, chunkSize, overlap, k)| <= chunkSize
  {
    OffsetIsProduct(k, chunkSize - overlap);
    OffsetMonotone(0, k, chunkSize - overlap);
  }

  /** The first chunk is always a prefix of the text. */
  lemma FirstChunkIsPrefix(text: string, chunkSize: int, overlap: int)
    requires |text| > 0
    ensures var c := ChunkAt(text, chunkSize, overlap, 0);
      |c| <= |text| && c == text[..|c|]
  {
  }

  /** n chunks of stride `step` cover a text of length `len`: the last one
      starts inside the text and the next would start past its end. */
  predicate Covers(len: nat, step: int, n: nat) {
    n >= 1 && Offset(n - 1, step) < len <= Offset(n, step)
  }

  lemma NumChunksCovers(len: nat, step: int)
    requires len > 0 && step > 0
    ensures Covers(len, step, NumChunks(len, step))
  {
    NumChunksBounds(len, step);
    var n := NumChunks(len, step);
    OffsetIsProduct(n - 1, step);
    OffsetIsProduct(n, step);
  }

  /** With a non-negative overlap smaller than the chunk size, the last chunk
      reaches the end of the text. */
  lemma LastChunkReachesEnd(text: string, chunkSize: int, overlap: int, n: nat)
    requires 0 <= overlap < chunkSize
    requires Covers(|text|, chunkSize - overlap, n)
    ensures 0 <= Offset(n - 1, chunkSize - overlap)
    ensures ChunkAt(text, chunkSize, overlap, n - 1) == text[Offset(n - 1, chunkSize - overlap)..]
  {
    OffsetMonotone(0, n - 1, chunkSize - overlap);
  }

  /** Python `c[:step]` for a non-negative `step`. */
  function Take(c: string, step: nat): string {
    if step <= |c| then c[..step] else c
  }

  /** Reassembly: the first `step` characters of every chunk but the last,
      then the whole last chunk. */
  function Reassemble(chunks: seq<string>, step: nat): string
    requires |chunks| > 0
  {
    if |chunks| == 1 then chunks[0]
    else Take(chunks[0], step) + Reassemble(chunks[1..], step)
  }

  /** An inner chunk, cut back to the stride, is the text between two
      consecutive chunk starts. */
  lemma InnerChunkTake(text: string, chunkSize: int, overlap: int, j: nat)
    requires 0 <= overlap < chunkSize
    requires Offset(j + 1, chunkSize - overlap) < |text|
    ensures 0 <= Offset(j, chunkSize - overlap)
    ensures Take(ChunkAt(text, chunkSize, overlap, j), chunkSize - overlap)
      == text[Offset(j, chunkSize - overlap)..Offset(j + 1, chunkSize - overlap)]
  {
    OffsetMonotone(0, j, chunkSize - overlap);
  }

  /** The shape reassembly needs: every piece but the last, cut back to the
      stride, is the text between two consecutive starts, and the last piece
      is the rest of the text. */
  predicate StridePieces(text: string, pieces: seq<string>, step: nat) {
    && |pieces| > 0
    && 0 <= Offset(|pieces| - 1, step) <= |text|
    && pieces[|pieces| - 1] == text[Offset(|pieces| - 1, step)..]
    && forall k :: 0 <= k < |pieces| - 1 ==> InnerPiece(text, pieces[k], step, Offset(k, step), Offset(k + 1, step))
  }

  /** `piece`, cut back to the stride, is the text from `a` to `b`. */
  predicate InnerPiece(text: string, piece: string, step: nat, a: int, b: int) {
    0 <= a <= b <= |text| && Take(piece, step) == text[a..b]
  }

  lemma {:induction false} ReassembleFrom(text: string, pieces: seq<string>, step: nat, j: nat)
    requires StridePieces(text, pieces, step) && j < |pieces|
    ensures 0 <= Offset(j, step) <= |text|
    ensures Reassemble(pieces[j..], step) == text[Offset(j, step)..]
    decreases |pieces| - j
  {
    if j == |pieces| - 1 {
      assert pieces[j..] == [pieces[j]];
    } else {
      ReassembleFrom(text, pieces, step, j + 1);
      var a, b := Offset(j, step), Offset(j + 1, step);
      assert InnerPiece(text, pieces[j], step, a, b);
      assert Reassemble(pieces[j..], step) == Take(pieces[j], step) + Reassemble(pieces[j + 1..], step) by {
        assert pieces[j..][1..] == pieces[j + 1..];
      }
      SliceSplit(text, a, b);
    }
  }

  /** Round trip: the chunks of a non-empty text, stripped of their overlap,
      concatenate back to the text. */
  lemma ChunksReassemble(text: string, chunks: seq<string>, chunkSize: int, overlap: int)
    requires |text| > 0 && 0 <= overlap < chunkSize
    requires |chunks| == NumChunks(|text|, chunkSize - overlap)
    requires forall k :: 0 <= k < |chunks| ==> chunks[k] == ChunkAt(text, chunkSize, overlap, k)
    ensures |chunks| > 0
    ensures Reassemble(chunks, chunkSize - overlap) == text
  {
    var step := chunkSize - overlap;
    var n := |chunks|;
    NumChunksCovers(|text|, step);
    assert StridePieces(text, chunks, step) by {
      LastChunkReachesEnd(text, chunkSize, overlap, n);
      forall k | 0 <= k < n - 1
        ensures InnerPiece(text, chunks[k], step, Offset(k, step), Offset(k + 1, step))
      {
        OffsetMonotone(k + 1, n - 1, step);
        InnerChunkTake(text, chunkSize, overlap, k);
      }
    }
    ReassembleFrom(text, chunks, step, 0);
    assert chunks[0..] == chunks;
  }
}
