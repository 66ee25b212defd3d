/**
 * The index arithmetic of the chunker: overlapping windows
 * (`sequence[i:i+k]` for `i in range(len(sequence) - k + 1)`), fixed blocks
 * (`itertools.batched(sequence, k)`), the offsets the FASTQ loops slice at,
 * and how each chunk is framed on output.
 */
module Chunks {
  import opened Text

  function Concat(parts: seq<string>): string
  {
    if parts == [] then "" else parts[0] + Concat(parts[1..])
  }

  /** Sliding windows: max(0, n-k+1) windows, window i being `s[i..i+k]`. */
  function Windows(s: string, k: nat): (w: seq<string>)
    requires k >= 1
    ensures |w| == if |s| >= k then |s| - k + 1 else 0
    ensures forall i :: 0 <= i < |w| ==> |w[i]| == k && w[i] == s[i..i + k]
    decreases |s|
  {
    if |s| < k then []
    else
      var rest := Windows(s[1..], k);
      assert forall i :: 0 <= i < |rest| ==> rest[i] == s[i + 1..i + 1 + k];
      [s[..k]] + rest
  }

  /** Integer division is determined by any quotient/remainder decomposition. */
  lemma DivUnique(n: int, k: int, q: int, r: int)
    requires k >= 1 && 0 <= r < k && n == q * k + r
    ensures n / k == q && n % k == r
  {
    var q', r' := n / k, n % k;
    assert n == q' * k + r';
    if q > q' {
      MulGap(q, q', k);
    } else if q < q' {
      MulGap(q', q, k);
    }
  }

  lemma MulGap(a: int, b: int, k: int)
    requires a > b && k >= 1
    ensures a * k - b * k >= k
  {
    var d := a - b;
    assert a * k == (b + d) * k == b * k + d * k;
    MulAtLeast(d, k);
  }

  lemma MulAtLeast(d: int, k: int)
    requires d >= 1 && k >= 1
    ensures d * k >= k
  {
  }

  lemma DivStep(x: nat, k: nat)
    requires k >= 1
    ensures (x + k) / k == x / k + 1
  {
    DivUnique(x + k, k, x / k + 1, x % k);
  }

  /** The FASTQ label `int(i/k)` at offset i = j*k is j. */
  lemma MulDiv(j: nat, k: nat)
    requires k >= 1
    ensures (j * k) / k == j
  {
    DivUnique(j * k, k, j, 0);
  }

  /** The number of blocks `batched` cuts n letters into, counted block by block. */
  function BlockCount(n: nat, k: nat): nat
    requires k >= 1
    decreases n
  {
    if n == 0 then 0 else if n <= k then 1 else 1 + BlockCount(n - k, k)
  }

  /** The block count is ceil(n/k). */
  lemma {:induction false} BlockCountIsCeiling(n: nat, k: nat)
    requires k >= 1
    ensures BlockCount(n, k) == (n + k - 1) / k
    decreases n
  {
    if n == 0 {
      DivUnique(k - 1, k, 0, k - 1);
    } else if n <= k {
      DivUnique(n + k - 1, k, 1, n - 1);
    } else {
      BlockCountIsCeiling(n - k, k);
      DivStep(n - 1, k);
    }
  }

  /**
   * `itertools.batched`: blocks of length k except the last, whose length
   * is in 1..k (BlocksConcat: joined in order they give back the sequence).
   */
  function Blocks(s: string, k: nat): (b: seq<string>)
    requires k >= 1
    ensures |b| == BlockCount(|s|, k)
    ensures forall j :: 0 <= j < |b| ==> 1 <= |b[j]| <= k
    ensures forall j :: 0 <= j < |b| - 1 ==> |b[j]| == k
    decreases |s|
  {
    if s == [] then []
    else if |s| <= k then [s]
    else [s[..k]] + Blocks(s[k..], k)
  }

  /** No letter is lost, duplicated or reordered by cutting into blocks. */
  lemma {:induction false} BlocksConcat(s: string, k: nat)
    requires k >= 1
    ensures Concat(Blocks(s, k)) == s
    decreases |s|
  {
    if s == [] {
    } else if |s| <= k {
      assert Concat([s]) == s + "";
    } else {
      var rest := Blocks(s[k..], k);
      BlocksConcat(s[k..], k);
      assert ([s[..k]] + rest)[1..] == rest;
      assert s[..k] + s[k..] == s;
    }
  }

  /** Block j starts at offset j*k: it is Python's `s[j*k : j*k+k]`. */
  lemma BlockAt(s: string, k: nat, j: nat)
    requires k >= 1 && j < |Blocks(s, k)|
    ensures j * k < |s|
    ensures Blocks(s, k)[j] == Slice(s, j * k, j * k + k)
  {
    StrideIsProduct(j, k);
    BlockAtOffset(s, k, j);
    assert Slice(s, j * k, j * k + k) == s[j * k..Min(j * k + k, |s|)];
  }

  /** j strides of k letters, counted without multiplying. */
  function Stride(j: nat, k: nat): nat
  {
    if j == 0 then 0 else Stride(j - 1, k) + k
  }

  lemma {:induction false} StrideIsProduct(j: nat, k: nat)
    ensures Stride(j, k) == j * k
  {
    if j > 0 {
      StrideIsProduct(j - 1, k);
      MulSucc(j - 1, k);
    }
  }

  lemma {:induction false} BlockAtOffset(s: string, k: nat, j: nat)
    requires k >= 1 && j < |Blocks(s, k)|
    ensures Stride(j, k) < |s|
    ensures Blocks(s, k)[j] == s[Stride(j, k)..Min(Stride(j, k) + k, |s|)]
    decreases j
  {
    if j == 0 {
      FirstBlock(s, k);
    } else {
      BlockShift(s, k, j);
      var o := Stride(j - 1, k);
      BlockAtOffset(s[k..], k, j - 1);
      var h := Min(o + k, |s| - k);
      DropSlice(s, k, o, h);
      assert Stride(j, k) == o + k;
      assert Min(o + k + k, |s|) == h + k;
    }
  }

  lemma FirstBlock(s: string, k: nat)
    requires k >= 1 && |Blocks(s, k)| > 0
    ensures 0 < |s| && Blocks(s, k)[0] == s[..Min(k, |s|)]
  {
  }

  lemma DropSlice(s: string, k: nat, lo: nat, hi: nat)
    requires k <= |s| && lo <= hi <= |s| - k
    ensures s[k..][lo..hi] == s[lo + k..hi + k]
  {
  }

  lemma BlocksUnfold(s: string, k: nat)
    requires k >= 1 && |s| > k
    ensures Blocks(s, k) == [s[..k]] + Blocks(s[k..], k)
  {
  }

  /** Past the first block, the blocks are those of the rest of the sequence. */
  lemma BlockShift(s: string, k: nat, j: nat)
    requires k >= 1 && 0 < j < |Blocks(s, k)|
    ensures |s| > k && j - 1 < |Blocks(s[k..], k)|
    ensures Blocks(s, k)[j] == Blocks(s[k..], k)[j - 1]
  {
  }

  lemma MulSucc(j: nat, k: nat)
    ensures (j + 1) * k == j * k + k
  {
  }

  // ---------------------------------------------------------------------------
  // The offsets the FASTQ loops slice at

  /** `range(len(sequence) - k + 1)`. */
  function WindowOffsets(n: nat, k: nat): seq<nat>
    requires k >= 1
  {
    seq(if n >= k then n - k + 1 else 0, i => i)
  }

  /** `range(0, len(sequence), k)`. */
  function BlockOffsets(n: nat, k: nat): seq<nat>
    requires k >= 1
  {
    seq(BlockCount(n, k), j => j * k)
  }

  /** `x[o:o+k]` for each offset o in order. */
  function SliceAt(x: string, offsets: seq<nat>, k: nat): seq<string>
  {
    seq(|offsets|, j requires 0 <= j < |offsets| => Slice(x, offsets[j], offsets[j] + k))
  }

  /** Slicing at the window offsets gives exactly the sliding windows. */
  lemma WindowOffsetsSliceWindows(s: string, k: nat)
    requires k >= 1
    ensures SliceAt(s, WindowOffsets(|s|, k), k) == Windows(s, k)
  {
  }

  /** Slicing at the block offsets gives exactly `batched`'s blocks, so FASTQ and FASTA chunk alike. */
  lemma BlockOffsetsSliceBlocks(s: string, k: nat)
    requires k >= 1
    ensures SliceAt(s, BlockOffsets(|s|, k), k) == Blocks(s, k)
  {
    var b := Blocks(s, k);
    var sliced := SliceAt(s, BlockOffsets(|s|, k), k);
    assert |sliced| == |b|;
    forall j | 0 <= j < |b| ensures sliced[j] == b[j] {
      BlockAt(s, k, j);
      FixedSliceAt(s, |s|, k, j);
    }
  }

  /**
   * Quality in sliding mode. A quality line that is the quality text plus a
   * terminator, the text at least as long as the sequence, is sliced inside
   * the text only: every quality window has length k and no terminator.
   */
  lemma SlidingQualityWindows(s: string, qualityText: string, terminator: string, k: nat)
    requires k >= 1 && |qualityText| >= |s|
    ensures var w := SliceAt(qualityText + terminator, WindowOffsets(|s|, k), k);
      |w| == |Windows(s, k)| &&
      forall i :: 0 <= i < |w| ==> |w[i]| == k && w[i] == qualityText[i..i + k]
  {
    var q := qualityText + terminator;
    var w := SliceAt(q, WindowOffsets(|s|, k), k);
    forall i | 0 <= i < |w| ensures |w[i]| == k && w[i] == qualityText[i..i + k] {
      assert w[i] == Slice(q, i, i + k);
      assert q[i..i + k] == qualityText[i..i + k];
    }
  }

  /**
   * Quality in fixed mode. For a quality line made of a quality text as long
   * as the sequence plus a terminator of at most one character, the quality
   * chunks are the text's own blocks, except that the last one takes the
   * terminator along whenever k does not divide n.
   */
  lemma {:induction false} FixedQualityBlocks(s: string, qualityText: string, terminator: string, k: nat)
    requires k >= 1 && |qualityText| == |s| && |s| > 0 && |terminator| <= 1
    ensures var b := SliceAt(qualityText + terminator, BlockOffsets(|s|, k), k);
      var qb := Blocks(qualityText, k);
      var m := |qb|;
      && |b| == m == |Blocks(s, k)| && m >= 1
      && b[..m - 1] == qb[..m - 1]
      && b[m - 1] == qb[m - 1] + (if |s| % k == 0 then "" else terminator)
  {
    var q := qualityText + terminator;
    var b := SliceAt(q, BlockOffsets(|s|, k), k);
    var qb := Blocks(qualityText, k);
    var m := |qb|;
    BlockCountIsCeiling(|s|, k);
    LastBlockEnd(|s|, k, m);
    forall j | 0 <= j < m - 1 ensures b[j] == qb[j] {
      InnerQualityBlock(qualityText, terminator, k, j);
    }
    LastQualityBlock(qualityText, terminator, k, m);
  }

  lemma {:induction false} InnerQualityBlock(qualityText: string, terminator: string, k: nat, j: nat)
    requires k >= 1 && j + 1 < |Blocks(qualityText, k)|
    ensures SliceAt(qualityText + terminator, BlockOffsets(|qualityText|, k), k)[j] == Blocks(qualityText, k)[j]
  {
    BlockAt(qualityText, k, j);
    FixedSliceAt(qualityText + terminator, |qualityText|, k, j);
    SliceOfPrefix(qualityText, terminator, j * k, j * k + k);
  }

  lemma {:induction false} LastQualityBlock(qualityText: string, terminator: string, k: nat, m: nat)
    requires k >= 1 && |qualityText| > 0 && |terminator| <= 1 && m == |Blocks(qualityText, k)| >= 1
    requires m == (|qualityText| + k - 1) / k
    ensures SliceAt(qualityText + terminator, BlockOffsets(|qualityText|, k), k)[m - 1]
      == Blocks(qualityText, k)[m - 1] + (if |qualityText| % k == 0 then "" else terminator)
  {
    var q := qualityText + terminator;
    var o := (m - 1) * k;
    LastBlockEnd(|qualityText|, k, m);
    BlockAt(qualityText, k, m - 1);
    FixedSliceAt(q, |qualityText|, k, m - 1);
    if |qualityText| % k == 0 {
      SliceOfPrefix(qualityText, terminator, o, o + k);
    } else {
      SliceToEnd(q, o, o + k);
      SliceToEnd(qualityText, o, o + k);
      assert q[o..] == qualityText[o..] + terminator;
    }
  }

  lemma {:induction false} FixedSliceAt(x: string, n: nat, k: nat, j: nat)
    requires k >= 1 && j < BlockCount(n, k)
    ensures SliceAt(x, BlockOffsets(n, k), k)[j] == Slice(x, j * k, j * k + k)
  {
    var offsets := BlockOffsets(n, k);
    assert offsets[j] == j * k;
    SliceAtIndex(x, offsets, k, j);
  }

  lemma SliceAtIndex(x: string, offsets: seq<nat>, k: nat, j: nat)
    requires j < |offsets|
    ensures |SliceAt(x, offsets, k)| == |offsets|
    ensures SliceAt(x, offsets, k)[j] == Slice(x, offsets[j], offsets[j] + k)
  {
  }

  lemma SliceOfPrefix(x: string, t: string, lo: nat, hi: nat)
    requires hi <= |x|
    ensures Slice(x + t, lo, hi) == Slice(x, lo, hi)
  {
    if lo <= hi {
      assert (x + t)[lo..hi] == x[lo..hi];
    }
  }

  lemma SliceToEnd(x: string, lo: nat, hi: nat)
    requires lo <= |x| <= hi
    ensures Slice(x, lo, hi) == x[lo..]
  {
  }

  /** Where the last of m = ceil(n/k) blocks ends. */
  lemma LastBlockEnd(n: nat, k: nat, m: nat)
    requires k >= 1 && n > 0 && m == (n + k - 1) / k
    ensures m >= 1
    ensures n % k == 0 ==> (m - 1) * k + k == n
    ensures n % k != 0 ==> (m - 1) * k + k == n + (k - n % k)
  {
    var q, r := n / k, n % k;
    assert n == q * k + r;
    if r == 0 {
      DivUnique(n + k - 1, k, q, k - 1);
      assert q >= 1;
    } else {
      assert (q + 1) * k == q * k + k;
      DivUnique(n + k - 1, k, q + 1, r - 1);
    }
  }

  /** The edge cases: one whole block, no windows when k exceeds n, n single-letter windows for k = 1. */
  lemma ChunkingEdgeCases(s: string, k: nat)
    requires k >= 1
    ensures |s| >= 1 ==> Blocks(s, |s|) == [s]
    ensures Blocks("", k) == []
    ensures k > |s| ==> Windows(s, k) == []
    ensures |Windows(s, 1)| == |s| && forall i :: 0 <= i < |s| ==> Windows(s, 1)[i] == [s[i]]
  {
  }

  // ---------------------------------------------------------------------------
  // Output framing

  /** `"{} - {}".format(header, i)`. */
  function Label(header: string, i: nat): string
  {
    header + " - " + NatToString(i)
  }

  /** FASTA chunk output: a label line and the chunk, chunk after chunk. */
  function FastaFrames(header: string, chunks: seq<string>): (out: seq<string>)
    ensures |out| == 2 * |chunks|
    ensures forall i :: 0 <= i < |chunks| ==> out[2 * i] == Label(header, i) && out[2 * i + 1] == chunks[i]
  {
    if chunks == [] then []
    else FastaFrames(header, chunks[..|chunks| - 1]) + [Label(header, |chunks| - 1), chunks[|chunks| - 1]]
  }

  /** FASTQ chunk output: label, sequence chunk, `+`, quality chunk, chunk after chunk. */
  function FastqFrames(header: string, chunks: seq<string>, qualities: seq<string>): (out: seq<string>)
    requires |chunks| == |qualities|
    ensures |out| == 4 * |chunks|
    ensures forall i :: 0 <= i < |chunks| ==>
      out[4 * i] == Label(header, i) && out[4 * i + 1] == chunks[i] &&
      out[4 * i + 2] == "+" && out[4 * i + 3] == qualities[i]
  {
    if chunks == [] then []
    else
      var n := |chunks| - 1;
      FastqFrames(header, chunks[..n], qualities[..n]) + [Label(header, n), chunks[n], "+", qualities[n]]
  }

  /** One more chunk adds its two lines at the end. */
  lemma FastaFramesSnoc(header: string, chunks: seq<string>, c: string)
    ensures FastaFrames(header, chunks + [c]) == FastaFrames(header, chunks) + [Label(header, |chunks|), c]
  {
    assert (chunks + [c])[..|chunks|] == chunks;
  }

  /** One more chunk adds its four lines at the end. */
  lemma FastqFramesSnoc(header: string, chunks: seq<string>, qualities: seq<string>, c: string, q: string)
    requires |chunks| == |qualities|
    ensures FastqFrames(header, chunks + [c], qualities + [q])
      == FastqFrames(header, chunks, qualities) + [Label(header, |chunks|), c, "+", q]
  {
    assert (chunks + [c])[..|chunks|] == chunks;
    assert (qualities + [q])[..|qualities|] == qualities;
  }

  /** Slicing at one more offset adds that one slice at the end. */
  lemma SliceAtSnoc(x: string, offsets: seq<nat>, i: nat, k: nat)
    requires i < |offsets|
    ensures SliceAt(x, offsets[..i + 1], k) == SliceAt(x, offsets[..i], k) + [Slice(x, offsets[i], offsets[i] + k)]
  {
    assert offsets[..i + 1][..i] == offsets[..i];
  }

  /** One more offset adds the four lines of that chunk to the FASTQ output. */
  lemma FastqFramesStep(header: string, sequence: string, quality: string, offsets: seq<nat>, i: nat, o: nat, k: nat)
    requires i < |offsets| && offsets[i] == o
    ensures FastqFrames(header, SliceAt(sequence, offsets[..i + 1], k), SliceAt(quality, offsets[..i + 1], k))
      == FastqFrames(header, SliceAt(sequence, offsets[..i], k), SliceAt(quality, offsets[..i], k))
         + [Label(header, i), Slice(sequence, o, o + k), "+", Slice(quality, o, o + k)]
  {
    SliceAtSnoc(sequence, offsets, i, k);
    SliceAtSnoc(quality, offsets, i, k);
    FastqFramesSnoc(header, SliceAt(sequence, offsets[..i], k), SliceAt(quality, offsets[..i], k),
      Slice(sequence, o, o + k), Slice(quality, o, o + k));
  }
}
