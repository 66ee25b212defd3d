/**
 * The FASTA/FASTQ chunker (sequences/chunk_sequences.py): sniff the format,
 * read the records, and print every record's sequence cut into fixed blocks
 * or sliding windows, each chunk under a label `"{header} - {index}"`.
 */
module ChunkSequences {
  import opened Text
  import opened Outcome
  import opened Sniffer
  import opened FastqRecords
  import opened Chunks

  // ---------------------------------------------------------------------------
  // FASTA records as chunk_fasta accumulates them

  datatype FastaRecord = FastaRecord(header: string, sequence: string)

  /** The loop state of chunk_fasta: the open header ("" before the first one), its body, and the records closed so far. */
  datatype FastaReader = FastaReader(header: string, sequence: string, done: seq<FastaRecord>)

  const Start := FastaReader("", "", [])

  /** A content line starting with `>`. */
  predicate IsHeaderLine(line: string)
  {
    !Skippable(line) && StartsWith(line, '>')
  }

  /** The records closed so far, plus the open one if a header has been seen. */
  function Closed(r: FastaReader): seq<FastaRecord>
  {
    if r.header != "" then r.done + [FastaRecord(r.header, r.sequence)] else r.done
  }

  function FastaStep(r: FastaReader, line: string): FastaReader
  {
    if Skippable(line) then r
    else if StartsWith(line, '>') then FastaReader(Strip(line), "", Closed(r))
    else r.(sequence := r.sequence + Strip(line))
  }

  function ReadFasta(r: FastaReader, lines: seq<string>): FastaReader
    decreases |lines|
  {
    if lines == [] then r else ReadFasta(FastaStep(r, lines[0]), lines[1..])
  }

  /** Every record chunk_fasta chunks, in order (the last one is flushed after the loop). */
  function FastaRecords(lines: seq<string>): seq<FastaRecord>
  {
    Closed(ReadFasta(Start, lines))
  }

  /** What a line adds to the open body: its stripped text, or nothing for a blank or comment line. */
  function Piece(line: string): string
  {
    if Skippable(line) then "" else Strip(line)
  }

  /** A record body: the pieces of its lines concatenated with no separator. */
  function Body(lines: seq<string>): string
  {
    if lines == [] then "" else Piece(lines[0]) + Body(lines[1..])
  }

  predicate NoHeaderLines(lines: seq<string>)
  {
    forall j :: 0 <= j < |lines| ==> !IsHeaderLine(lines[j])
  }

  function CountHeaderLines(lines: seq<string>): nat
  {
    if lines == [] then 0 else (if IsHeaderLine(lines[0]) then 1 else 0) + CountHeaderLines(lines[1..])
  }

  lemma {:induction false} ReadFastaAppend(r: FastaReader, a: seq<string>, b: seq<string>)
    ensures ReadFasta(r, a + b) == ReadFasta(ReadFasta(r, a), b)
    decreases |a|
  {
    if a == [] {
      assert a + b == b;
    } else {
      assert (a + b)[0] == a[0] && (a + b)[1..] == a[1..] + b;
      ReadFastaAppend(FastaStep(r, a[0]), a[1..], b);
    }
  }

  lemma StepBody(r: FastaReader, line: string)
    requires !IsHeaderLine(line)
    ensures FastaStep(r, line) == r.(sequence := r.sequence + Piece(line))
  {
    if Skippable(line) {
      assert r.sequence + "" == r.sequence;
    }
  }

  lemma BodyCons(prefix: string, body: seq<string>)
    requires body != []
    ensures prefix + Piece(body[0]) + Body(body[1..]) == prefix + Body(body)
  {
    assert Body(body) == Piece(body[0]) + Body(body[1..]);
    AppendAssoc(prefix, Piece(body[0]), Body(body[1..]));
  }

  /** Lines without a header only add to the open body. */
  lemma {:induction false} ReadBody(r: FastaReader, body: seq<string>)
    requires NoHeaderLines(body)
    ensures ReadFasta(r, body) == r.(sequence := r.sequence + Body(body))
    decreases |body|
  {
    if body == [] {
      assert r.sequence + "" == r.sequence;
    } else {
      var r' := r.(sequence := r.sequence + Piece(body[0]));
      StepBody(r, body[0]);
      assert ReadFasta(r, body) == ReadFasta(r', body[1..]);
      ReadBody(r', body[1..]);
      BodyCons(r.sequence, body);
      assert ReadFasta(r', body[1..]) == r'.(sequence := r.sequence + Piece(body[0]) + Body(body[1..]));
    }
  }

  /** Records closed before a point stay in front of everything read after it. */
  lemma {:induction false} ReadFastaKeepsDone(r: FastaReader, lines: seq<string>, earlier: seq<FastaRecord>)
    ensures var t := ReadFasta(r, lines);
      ReadFasta(r.(done := earlier + r.done), lines) == t.(done := earlier + t.done)
    decreases |lines|
  {
    if lines != [] {
      var r' := r.(done := earlier + r.done);
      var s := FastaStep(r, lines[0]);
      assert FastaStep(r', lines[0]) == s.(done := earlier + s.done) by {
        if r.header != "" {
          assert earlier + r.done + [FastaRecord(r.header, r.sequence)]
            == earlier + (r.done + [FastaRecord(r.header, r.sequence)]);
        }
      }
      ReadFastaKeepsDone(s, lines[1..], earlier);
    }
  }

  /** Before the first header nothing is closed, whatever body has piled up. */
  lemma {:induction false} BodyBeforeHeaderIgnored(x: string, y: string, lines: seq<string>)
    ensures Closed(ReadFasta(FastaReader("", x, []), lines)) == Closed(ReadFasta(FastaReader("", y, []), lines))
    decreases |lines|
  {
    if lines != [] {
      var line := lines[0];
      if Skippable(line) {
        BodyBeforeHeaderIgnored(x, y, lines[1..]);
      } else if StartsWith(line, '>') {
        assert FastaStep(FastaReader("", x, []), line) == FastaStep(FastaReader("", y, []), line);
      } else {
        BodyBeforeHeaderIgnored(x + Strip(line), y + Strip(line), lines[1..]);
      }
    }
  }

  /** Body lines in front of the first header are discarded. */
  lemma DiscardsBodyBeforeFirstHeader(preamble: seq<string>, lines: seq<string>)
    requires NoHeaderLines(preamble)
    ensures FastaRecords(preamble + lines) == FastaRecords(lines)
  {
    ReadFastaAppend(Start, preamble, lines);
    ReadBody(Start, preamble);
    assert "" + Body(preamble) == Body(preamble);
    assert ReadFasta(Start, preamble) == FastaReader("", Body(preamble), []);
    BodyBeforeHeaderIgnored(Body(preamble), "", lines);
  }

  /** A header line, the body lines up to the next header, and the rest: one record, then the rest's records. */
  lemma {:induction false} FastaRecordsCons(header: string, body: seq<string>, rest: seq<string>)
    requires IsHeaderLine(header) && NoHeaderLines(body)
    requires rest == [] || IsHeaderLine(rest[0])
    ensures FastaRecords([header] + body + rest)
      == [FastaRecord(Strip(header), Body(body))] + FastaRecords(rest)
  {
    StripKeepsFirst(header);
    var open := FastaReader(Strip(header), "", []);
    assert FastaStep(Start, header) == open;
    ReadFastaAppend(Start, [header], body + rest);
    assert [header] + body + rest == [header] + (body + rest);
    ReadFastaAppend(open, body, rest);
    ReadBody(open, body);
    var afterBody := FastaReader(Strip(header), Body(body), []);
    assert "" + Body(body) == Body(body);
    var record := FastaRecord(Strip(header), Body(body));
    if rest != [] {
      StripKeepsFirst(rest[0]);
      var next := FastaReader(Strip(rest[0]), "", []);
      assert FastaStep(afterBody, rest[0]) == next.(done := [record] + next.done);
      assert FastaStep(Start, rest[0]) == next;
      ReadFastaKeepsDone(next, rest[1..], [record]);
      var t := ReadFasta(next, rest[1..]);
      assert Closed(t.(done := [record] + t.done)) == [record] + Closed(t) by {
        if t.header != "" {
          assert [record] + t.done + [FastaRecord(t.header, t.sequence)] == [record] + (t.done + [FastaRecord(t.header, t.sequence)]);
        }
      }
    }
  }

  /** Exactly one record per header line; every label is a stripped header, `>` included. */
  lemma {:induction false} RecordPerHeader(r: FastaReader, lines: seq<string>)
    requires r.header == [] || StartsWith(r.header, '>')
    requires forall j :: 0 <= j < |r.done| ==> StartsWith(r.done[j].header, '>')
    ensures var t := ReadFasta(r, lines);
      && |Closed(t)| == |Closed(r)| + CountHeaderLines(lines)
      && forall j :: 0 <= j < |Closed(t)| ==> StartsWith(Closed(t)[j].header, '>')
    decreases |lines|
  {
    if lines != [] {
      var line := lines[0];
      if IsHeaderLine(line) {
        StripKeepsFirst(line);
      }
      RecordPerHeader(FastaStep(r, line), lines[1..]);
    }
  }

  lemma FastaRecordCount(lines: seq<string>)
    ensures |FastaRecords(lines)| == CountHeaderLines(lines)
    ensures forall j :: 0 <= j < |FastaRecords(lines)| ==> StartsWith(FastaRecords(lines)[j].header, '>')
  {
    RecordPerHeader(Start, lines);
  }

  // ---------------------------------------------------------------------------
  // Writing FASTA records wrapped at a fixed width, and reading them back

  /** A letter a sequence body can hold without being read as blank, comment or header. */
  predicate IsResidue(c: char)
  {
    !IsSpace(c) && c != '>' && c != '#'
  }

  predicate Residues(s: string)
  {
    forall i :: 0 <= i < |s| ==> IsResidue(s[i])
  }

  predicate WritableFasta(r: FastaRecord)
  {
    StartsWith(r.header, '>') && Trimmed(r.header) && Residues(r.sequence)
  }

  function Wrapped(blocks: seq<string>): seq<string>
  {
    if blocks == [] then [] else [blocks[0] + "\n"] + Wrapped(blocks[1..])
  }

  function FastaRecordLines(r: FastaRecord, width: nat): seq<string>
    requires width >= 1
  {
    [r.header + "\n"] + Wrapped(Blocks(r.sequence, width))
  }

  function FormatFasta(records: seq<FastaRecord>, width: nat): seq<string>
    requires width >= 1
  {
    if records == [] then [] else FastaRecordLines(records[0], width) + FormatFasta(records[1..], width)
  }

  lemma {:induction false} BlocksOfResidues(s: string, k: nat)
    requires k >= 1 && Residues(s)
    ensures forall j :: 0 <= j < |Blocks(s, k)| ==> Residues(Blocks(s, k)[j])
    decreases |s|
  {
    if |s| > k {
      BlocksUnfold(s, k);
      BlocksOfResidues(s[k..], k);
    }
  }

  /** Wrapped residue lines are body lines whose stripped contents concatenate to the unwrapped text. */
  lemma {:induction false} WrappedBody(blocks: seq<string>)
    requires forall j :: 0 <= j < |blocks| ==> blocks[j] != [] && Residues(blocks[j])
    ensures NoHeaderLines(Wrapped(blocks))
    ensures Body(Wrapped(blocks)) == Concat(blocks)
    decreases |blocks|
  {
    if blocks != [] {
      var b := blocks[0];
      var line := b + "\n";
      assert line[0] == b[0];
      assert IsResidue(b[0]) && IsResidue(b[|b| - 1]);
      StripTrimmedLine(b, "\n");
      assert !IsBlank(line);
      WrappedBody(blocks[1..]);
      var w := Wrapped(blocks);
      assert w[1..] == Wrapped(blocks[1..]);
      forall j | 0 <= j < |w| ensures !IsHeaderLine(w[j]) {
        if j > 0 { assert w[j] == Wrapped(blocks[1..])[j - 1]; }
      }
    }
  }

  /** Reading back records written with wrapped bodies gives the same records, whatever the width. */
  lemma {:induction false} ReadFormatFasta(records: seq<FastaRecord>, width: nat)
    requires width >= 1
    requires forall j :: 0 <= j < |records| ==> WritableFasta(records[j])
    ensures FastaRecords(FormatFasta(records, width)) == records
    decreases |records|
  {
    if records == [] {
      assert ReadFasta(Start, []) == Start;
    } else {
      var r := records[0];
      var headerLine := r.header + "\n";
      var blocks := Blocks(r.sequence, width);
      BlocksOfResidues(r.sequence, width);
      BlocksConcat(r.sequence, width);
      WrappedBody(blocks);
      StripTrimmedLine(r.header, "\n");
      assert headerLine[0] == '>';
      assert IsHeaderLine(headerLine) by { assert !IsBlank(headerLine) by { assert !IsSpace(headerLine[0]); } }
      var rest := FormatFasta(records[1..], width);
      if records[1..] != [] {
        var r1 := records[1..][0];
        assert rest[0] == r1.header + "\n";
        assert (r1.header + "\n")[0] == '>';
        assert IsHeaderLine(rest[0]) by { assert !IsBlank(rest[0]) by { assert !IsSpace(rest[0][0]); } }
      }
      assert FormatFasta(records, width) == [headerLine] + Wrapped(blocks) + rest;
      FastaRecordsCons(headerLine, Wrapped(blocks), rest);
      ReadFormatFasta(records[1..], width);
      assert [r] + records[1..] == records;
    }
  }

  // ---------------------------------------------------------------------------
  // What gets printed

  /** A sequence cut into sliding windows or fixed blocks. */
  function Chunked(sequence: string, k: nat, sliding: bool): seq<string>
    requires k >= 1
  {
    if sliding then Windows(sequence, k) else Blocks(sequence, k)
  }

  /** The whole stdout of chunk_fasta for these records. */
  function FastaOutput(records: seq<FastaRecord>, k: nat, sliding: bool): seq<string>
    requires k >= 1
  {
    if records == [] then []
    else
      var r := records[|records| - 1];
      FastaOutput(records[..|records| - 1], k, sliding) + FastaFrames(r.header, Chunked(r.sequence, k, sliding))
  }

  /** The offsets chunk_fastq slices sequence and quality at. */
  function Offsets(n: nat, k: nat, sliding: bool): seq<nat>
    requires k >= 1
  {
    if sliding then WindowOffsets(n, k) else BlockOffsets(n, k)
  }

  /** What chunk_fastq prints for one record: sequence and quality sliced at the same offsets. */
  function FastqRecordOutput(r: FastqRecord, k: nat, sliding: bool): seq<string>
    requires k >= 1
  {
    var offsets := Offsets(|r.sequence|, k, sliding);
    FastqFrames(r.header, SliceAt(r.sequence, offsets, k), SliceAt(r.quality, offsets, k))
  }

  /** The whole stdout of chunk_fastq for these records. */
  function FastqOutput(records: seq<FastqRecord>, k: nat, sliding: bool): seq<string>
    requires k >= 1
  {
    if records == [] then []
    else FastqOutput(records[..|records| - 1], k, sliding) + FastqRecordOutput(records[|records| - 1], k, sliding)
  }

  lemma FastaOutputSnoc(records: seq<FastaRecord>, r: FastaRecord, k: nat, sliding: bool)
    requires k >= 1
    ensures FastaOutput(records + [r], k, sliding)
      == FastaOutput(records, k, sliding) + FastaFrames(r.header, Chunked(r.sequence, k, sliding))
  {
    assert (records + [r])[..|records|] == records;
  }

  lemma FastqOutputSnoc(records: seq<FastqRecord>, r: FastqRecord, k: nat, sliding: bool)
    requires k >= 1
    ensures FastqOutput(records + [r], k, sliding) == FastqOutput(records, k, sliding) + FastqRecordOutput(r, k, sliding)
  {
    assert (records + [r])[..|records|] == records;
  }

  /** chunk_fastq cuts the sequence into exactly the chunks chunk_fasta would; only the framing differs. */
  lemma FastqChunksLikeFasta(r: FastqRecord, k: nat, sliding: bool)
    requires k >= 1
    ensures SliceAt(r.sequence, Offsets(|r.sequence|, k, sliding), k) == Chunked(r.sequence, k, sliding)
  {
    if sliding {
      WindowOffsetsSliceWindows(r.sequence, k);
    } else {
      BlockOffsetsSliceBlocks(r.sequence, k);
    }
  }

  // ---------------------------------------------------------------------------
  // The printing loops

  /** `for i in range(len(sequence) - k + 1)`: a label and `sequence[i:i+k]` per window. */
  method EmitWindows(header: string, sequence: string, k: nat) returns (out: seq<string>)
    requires k >= 1
    ensures out == FastaFrames(header, Windows(sequence, k))
  {
    ghost var windows := Windows(sequence, k);
    out := [];
    var i := 0;
    while i < |sequence| - k + 1
      invariant 0 <= i <= |windows|
      invariant out == FastaFrames(header, windows[..i])
    {
      assert windows[..i + 1][..i] == windows[..i];
      out := out + [Label(header, i), sequence[i..i + k]];
      i := i + 1;
    }
    assert windows[..i] == windows;
  }

  /** `itertools.batched` takes the first block (at most k letters) off the front. */
  lemma TakeBlock(rest: string, k: nat)
    requires k >= 1 && rest != []
    ensures var n := Min(|rest|, k); Blocks(rest, k) == [rest[..n]] + Blocks(rest[n..], k)
  {
    if |rest| <= k {
      assert rest[..|rest|] == rest && rest[|rest|..] == [];
    } else {
      BlocksUnfold(rest, k);
    }
  }

  /** `for i, seq in enumerate(itertools.batched(sequence, k))`: the blocks are taken off the front one by one. */
  method EmitBlocks(header: string, sequence: string, k: nat) returns (out: seq<string>)
    requires k >= 1
    ensures out == FastaFrames(header, Blocks(sequence, k))
  {
    ghost var done: seq<string> := [];
    out := [];
    var rest := sequence;
    var i := 0;
    while rest != []
      invariant i == |done|
      invariant Blocks(sequence, k) == done + Blocks(rest, k)
      invariant out == FastaFrames(header, done)
      decreases |rest|
    {
      var n := if |rest| < k then |rest| else k;
      BatchedStep(header, sequence, k, done, rest);
      out := out + [Label(header, i), rest[..n]];
      done := done + [rest[..n]];
      rest := rest[n..];
      i := i + 1;
    }
    assert done + [] == done;
  }

  /** One round of the batched loop keeps its invariant. */
  lemma BatchedStep(header: string, sequence: string, k: nat, done: seq<string>, rest: string)
    requires k >= 1 && rest != []
    requires Blocks(sequence, k) == done + Blocks(rest, k)
    ensures var n := Min(|rest|, k);
      && Blocks(sequence, k) == (done + [rest[..n]]) + Blocks(rest[n..], k)
      && FastaFrames(header, done + [rest[..n]]) == FastaFrames(header, done) + [Label(header, |done|), rest[..n]]
  {
    var n := Min(|rest|, k);
    TakeBlock(rest, k);
    FastaFramesSnoc(header, done, rest[..n]);
    ShiftHead(done, rest[..n], Blocks(rest[n..], k), Blocks(rest, k));
  }

  /** The chunk printing of chunk_fasta, written twice there (for a header and after the loop). */
  method EmitFastaRecord(header: string, sequence: string, k: nat, sliding: bool) returns (out: seq<string>)
    requires k >= 1
    ensures out == FastaFrames(header, Chunked(sequence, k, sliding))
  {
    if sliding {
      out := EmitWindows(header, sequence, k);
    } else {
      out := EmitBlocks(header, sequence, k);
    }
  }

  /** chunk_fasta: accumulate header and body, print the open record at every header and at the end. */
  method ChunkFasta(lines: seq<string>, k: nat, sliding: bool) returns (out: seq<string>)
    requires k >= 1
    ensures out == FastaOutput(FastaRecords(lines), k, sliding)
  {
    var header := "";
    var sequence := "";
    ghost var done: seq<FastaRecord> := [];
    out := [];
    var i := 0;
    while i < |lines|
      invariant 0 <= i <= |lines|
      invariant ReadFasta(FastaReader(header, sequence, done), lines[i..]) == ReadFasta(Start, lines)
      invariant out == FastaOutput(done, k, sliding)
    {
      var line := lines[i];
      ghost var before := FastaReader(header, sequence, done);
      assert lines[i..] == [line] + lines[i + 1..];
      StripEmptyIffBlank(line);
      if Strip(line) == "" || StartsWith(line, '#') {
      } else if StartsWith(line, '>') {
        if header != "" {
          var chunks := EmitFastaRecord(header, sequence, k, sliding);
          out := out + chunks;
          FastaOutputSnoc(done, FastaRecord(header, sequence), k, sliding);
          done := done + [FastaRecord(header, sequence)];
        }
        header := Strip(line);
        sequence := "";
      } else {
        sequence := sequence + Strip(line);
      }
      assert FastaReader(header, sequence, done) == FastaStep(before, line);
      i := i + 1;
    }
    assert lines[i..] == [];
    if header != "" {
      var chunks := EmitFastaRecord(header, sequence, k, sliding);
      out := out + chunks;
      FastaOutputSnoc(done, FastaRecord(header, sequence), k, sliding);
      done := done + [FastaRecord(header, sequence)];
    }
  }

  /** chunk_fastq's sliding loop: window i of the sequence and the same slice of the raw quality line. */
  method EmitFastqWindows(header: string, sequence: string, quality: string, k: nat) returns (out: seq<string>)
    requires k >= 1
    ensures var offsets := WindowOffsets(|sequence|, k);
      out == FastqFrames(header, SliceAt(sequence, offsets, k), SliceAt(quality, offsets, k))
  {
    ghost var offsets := WindowOffsets(|sequence|, k);
    out := [];
    var i := 0;
    while i < |sequence| - k + 1
      invariant 0 <= i <= |offsets|
      invariant out == FastqFrames(header, SliceAt(sequence, offsets[..i], k), SliceAt(quality, offsets[..i], k))
    {
      FastqFramesStep(header, sequence, quality, offsets, i, i, k);
      out := out + [Label(header, i), Slice(sequence, i, i + k), "+", Slice(quality, i, i + k)];
      i := i + 1;
    }
    assert offsets[..i] == offsets;
  }

  /** chunk_fastq's fixed loop: `range(0, len(sequence), k)`, labelled `int(i / k)`. */
  method EmitFastqBlocks(header: string, sequence: string, quality: string, k: nat) returns (out: seq<string>)
    requires k >= 1
    ensures var offsets := BlockOffsets(|sequence|, k);
      out == FastqFrames(header, SliceAt(sequence, offsets, k), SliceAt(quality, offsets, k))
  {
    ghost var offsets := BlockOffsets(|sequence|, k);
    out := [];
    var i := 0;
    ghost var j := 0;
    while i < |sequence|
      invariant 0 <= j <= |offsets| && i == j * k
      invariant out == FastqFrames(header, SliceAt(sequence, offsets[..j], k), SliceAt(quality, offsets[..j], k))
      decreases |sequence| - i
    {
      OffsetInRange(|sequence|, k, j);
      MulDiv(j, k);
      FastqFramesStep(header, sequence, quality, offsets, j, i, k);
      out := out + [Label(header, i / k), Slice(sequence, i, i + k), "+", Slice(quality, i, i + k)];
      MulSucc(j, k);
      i := i + k;
      j := j + 1;
    }
    OffsetInRange(|sequence|, k, j);
    assert offsets[..j] == offsets;
  }

  /** One FASTQ record's chunks: sequence and raw quality sliced at the same offsets, four lines per chunk. */
  method EmitFastqRecord(header: string, sequence: string, quality: string, k: nat, sliding: bool)
    returns (out: seq<string>)
    requires k >= 1
    ensures out == FastqRecordOutput(FastqRecord(header, sequence, quality), k, sliding)
  {
    if sliding {
      out := EmitFastqWindows(header, sequence, quality, k);
    } else {
      out := EmitFastqBlocks(header, sequence, quality, k);
    }
  }

  /** Offset j*k is still inside a sequence of n letters exactly when block j exists. */
  lemma {:induction false} OffsetInRange(n: nat, k: nat, j: nat)
    requires k >= 1
    ensures j * k < n <==> j < BlockCount(n, k)
    decreases n
  {
    if n > k && j > 0 {
      MulSucc(j - 1, k);
      OffsetInRange(n - k, k, j - 1);
    } else if j > 0 {
      MulAtLeast(j, k);
    }
  }

  /** chunk_fastq: skip to a header, take the next three lines blindly, print the chunks. */
  method ChunkFastq(lines: seq<string>, k: nat, sliding: bool) returns (out: seq<string>, error: Option<PyError>)
    requires k >= 1
    ensures var scan := ParseFastq(lines);
      && out == FastqOutput(scan.records, k, sliding)
      && error == (if scan.truncated then Some(StopIteration) else None)
  {
    ghost var done: seq<FastqRecord> := [];
    out := [];
    var i := 0;
    while i < |lines|
      invariant 0 <= i <= |lines|
      invariant ParseFastq(lines).records == done + ParseFastq(lines[i..]).records
      invariant ParseFastq(lines).truncated == ParseFastq(lines[i..]).truncated
      invariant out == FastqOutput(done, k, sliding)
    {
      var line := lines[i];
      if IsBlank(line) || StartsWith(line, '#') {
        ParseFastqAt(lines, i);
        i := i + 1;
        continue;
      }
      if i + 3 >= |lines| {
        // one of the three `next(file)` calls raises
        ParseFastqAt(lines, i);
        assert done + [] == done;
        return out, Some(StopIteration);
      }
      var header := Strip(line);
      var sequence := Strip(lines[i + 1]);
      var quality := lines[i + 3];
      var chunks := EmitFastqRecord(header, sequence, quality, k, sliding);
      var record := FastqRecord(header, sequence, quality);
      ParseFastqAt(lines, i);
      ShiftHead(done, record, ParseFastq(lines[i + 4..]).records, ParseFastq(lines[i..]).records);
      FastqOutputSnoc(done, record, k, sliding);
      out := out + chunks;
      done := done + [record];
      i := i + 4;
    }
    assert ParseFastq(lines[i..]) == FastqScan([], false);
    assert done + [] == done;
    return out, None;
  }

  /**
   * The chunker's main: sniff, then chunk FASTA or FASTQ from the start of the
   * file, or report an unknown format. A file with no content line prints
   * nothing; an `@` line without two followers raises StopIteration.
   */
  method ChunkSequences(file: string, lines: seq<string>, chunkSize: nat, slidingWindow: bool)
    returns (stdout: seq<string>, stderr: seq<string>, error: Option<PyError>)
    requires chunkSize >= 1
    ensures Classify(lines) == Fasta ==>
      stdout == FastaOutput(FastaRecords(lines), chunkSize, slidingWindow) && stderr == [] && error == None
    ensures Classify(lines) == Fastq ==>
      var scan := ParseFastq(lines);
      && stdout == FastqOutput(scan.records, chunkSize, slidingWindow) && stderr == []
      && error == (if scan.truncated then Some(StopIteration) else None)
    ensures Classify(lines) == Unknown ==> stdout == [] && stderr == [UnknownFormatMessage(file)] && error == None
    ensures Classify(lines) == NoContent ==> stdout == [] && stderr == [] && error == None
    ensures Classify(lines) == Truncated ==> stdout == [] && stderr == [] && error == Some(StopIteration)
  {
    var format := SniffFormat(lines);
    stdout, stderr, error := [], [], None;
    match format {
      case Fasta =>
        stdout := ChunkFasta(lines, chunkSize, slidingWindow);
      case Fastq =>
        stdout, error := ChunkFastq(lines, chunkSize, slidingWindow);
      case Unknown =>
        stderr := [UnknownFormatMessage(file)];
      case NoContent =>
      case Truncated =>
        error := Some(StopIteration);
    }
  }
}
