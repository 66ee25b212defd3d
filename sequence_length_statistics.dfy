/**
 * The read-length summary (fastq/sequence_length_statistics.py): per input
 * file a `{length: count}` dictionary of sequence lengths, then one TSV table
 * with a row per length from 1 up to the longest length seen and a column per
 * input file.
 */
module LengthStatistics {
  import opened Text
  import opened Outcome
  import opened Sniffer
  import opened FastqRecords
  import opened Histograms
  import ChunkSequences

  // ---------------------------------------------------------------------------
  // sequence_lengths_in_fasta

  /**
   * The lengths bumped by sequence_lengths_in_fasta, given the body read so
   * far: every header bumps the length of the body before it; the body after
   * the last header is never bumped.
   */
  function FastaLengthsFrom(sequence: string, lines: seq<string>): seq<nat>
    decreases |lines|
  {
    if lines == [] then []
    else if Skippable(lines[0]) then FastaLengthsFrom(sequence, lines[1..])
    else if StartsWith(lines[0], '>') then [|sequence|] + FastaLengthsFrom("", lines[1..])
    else FastaLengthsFrom(sequence + Strip(lines[0]), lines[1..])
  }

  function FastaLengths(lines: seq<string>): seq<nat>
  {
    FastaLengthsFrom("", lines)
  }

  /** One step of sequence_lengths_in_fasta, from line i on. */
  lemma FastaLengthsAt(sequence: string, lines: seq<string>, i: nat)
    requires i < |lines|
    ensures Skippable(lines[i]) ==> FastaLengthsFrom(sequence, lines[i..]) == FastaLengthsFrom(sequence, lines[i + 1..])
    ensures !Skippable(lines[i]) && StartsWith(lines[i], '>') ==>
      FastaLengthsFrom(sequence, lines[i..]) == [|sequence|] + FastaLengthsFrom("", lines[i + 1..])
    ensures !Skippable(lines[i]) && !StartsWith(lines[i], '>') ==>
      FastaLengthsFrom(sequence, lines[i..]) == FastaLengthsFrom(sequence + Strip(lines[i]), lines[i + 1..])
  {
    var tail := lines[i..];
    assert tail[0] == lines[i] && tail[1..] == lines[i + 1..];
  }

  /** sequence_lengths_in_fasta: bump the current length at every header. */
  method CountFastaLengths(lines: seq<string>) returns (statistics: Histogram)
    ensures statistics == HistogramOf(FastaLengths(lines))
  {
    statistics := map[];
    var sequence := "";
    ghost var bumped: seq<nat> := [];
    var i := 0;
    while i < |lines|
      invariant 0 <= i <= |lines|
      invariant FastaLengths(lines) == bumped + FastaLengthsFrom(sequence, lines[i..])
      invariant statistics == HistogramOf(bumped)
    {
      var line := lines[i];
      FastaLengthsAt(sequence, lines, i);
      if IsBlank(line) || StartsWith(line, '#') {
      } else if StartsWith(line, '>') {
        HistogramSnoc(bumped, |sequence|);
        ShiftHead(bumped, |sequence|, FastaLengthsFrom("", lines[i + 1..]), FastaLengthsFrom(sequence, lines[i..]));
        statistics := statistics[|sequence| := Count(statistics, |sequence|) + 1];
        bumped := bumped + [|sequence|];
        sequence := "";
      } else {
        sequence := sequence + Strip(line);
      }
      i := i + 1;
    }
    assert lines[i..] == [];
    assert bumped + [] == bumped;
  }

  /** Lengths of FASTA records, first to last. */
  function RecordLengths(records: seq<ChunkSequences.FastaRecord>): (r: seq<nat>)
    ensures |r| == |records|
  {
    if records == [] then [] else [|records[0].sequence|] + RecordLengths(records[1..])
  }

  /** Entry j is the length of record j's sequence. */
  lemma {:induction false} RecordLengthsAt(records: seq<ChunkSequences.FastaRecord>, j: nat)
    requires j < |records|
    ensures RecordLengths(records)[j] == |records[j].sequence|
    decreases j
  {
    if j > 0 {
      RecordLengthsAt(records[1..], j - 1);
    }
  }

  /**
   * Against the records the chunker reads from the same lines: from an open
   * record on, the bumped lengths are those of the records closed from there,
   * in order, leaving out the last record.
   */
  lemma {:induction false} LengthsOfClosedRecords(r: ChunkSequences.FastaReader, lines: seq<string>)
    requires r.header != ""
    ensures var c := ChunkSequences.Closed(ChunkSequences.ReadFasta(r, lines));
      && |r.done| < |c| && c[..|r.done|] == r.done
      && FastaLengthsFrom(r.sequence, lines) == RecordLengths(c[|r.done|..|c| - 1])
    decreases |lines|
  {
    var c := ChunkSequences.Closed(ChunkSequences.ReadFasta(r, lines));
    var open := ChunkSequences.FastaRecord(r.header, r.sequence);
    if lines == [] {
      assert c == r.done + [open];
      assert c[|r.done|..|c| - 1] == [];
    } else {
      var line := lines[0];
      if Skippable(line) {
        LengthsOfClosedRecords(r, lines[1..]);
      } else if StartsWith(line, '>') {
        StripKeepsFirst(line);
        var next := ChunkSequences.FastaReader(Strip(line), "", r.done + [open]);
        LengthsOfClosedRecords(next, lines[1..]);
        ReadFastaHeader(r, lines);
        FastaLengthsHeader(r.sequence, lines);
        CloseFirst(c, r.done, open, FastaLengthsFrom(r.sequence, lines), FastaLengthsFrom("", lines[1..]));
      } else {
        var next := r.(sequence := r.sequence + Strip(line));
        assert ChunkSequences.FastaStep(r, line) == next;
        LengthsOfClosedRecords(next, lines[1..]);
      }
    }
  }

  /** A header line closes the open record. */
  lemma ReadFastaHeader(r: ChunkSequences.FastaReader, lines: seq<string>)
    requires r.header != "" && lines != [] && ChunkSequences.IsHeaderLine(lines[0])
    ensures ChunkSequences.ReadFasta(r, lines)
      == ChunkSequences.ReadFasta(ChunkSequences.FastaReader(Strip(lines[0]), "", r.done + [ChunkSequences.FastaRecord(r.header, r.sequence)]), lines[1..])
  {
  }

  /** A header line bumps the pending length. */
  lemma FastaLengthsHeader(sequence: string, lines: seq<string>)
    requires lines != [] && ChunkSequences.IsHeaderLine(lines[0])
    ensures FastaLengthsFrom(sequence, lines) == [|sequence|] + FastaLengthsFrom("", lines[1..])
  {
  }

  /** The lengths closed after `done` start with the record closed right after it. */
  lemma CloseFirst(c: seq<ChunkSequences.FastaRecord>, done: seq<ChunkSequences.FastaRecord>, open: ChunkSequences.FastaRecord, all: seq<nat>, rest: seq<nat>)
    requires |done| + 1 < |c| && c[..|done| + 1] == done + [open]
    requires rest == RecordLengths(c[|done| + 1..|c| - 1]) && all == [|open.sequence|] + rest
    ensures |done| < |c| && c[..|done|] == done && all == RecordLengths(c[|done|..|c| - 1])
  {
    PeelClosed(c, done, open);
    RecordLengthsCons(open, c[|done| + 1..|c| - 1]);
  }

  /** A record closed right after `done` comes first in what is closed from there on. */
  lemma PeelClosed<T>(c: seq<T>, done: seq<T>, x: T)
    requires |done| + 1 < |c| && c[..|done| + 1] == done + [x]
    ensures c[..|done|] == done
    ensures c[|done|..|c| - 1] == [x] + c[|done| + 1..|c| - 1]
  {
    assert c[..|done|] == c[..|done| + 1][..|done|];
    assert c[|done|] == c[..|done| + 1][|done|];
  }

  lemma RecordLengthsCons(x: ChunkSequences.FastaRecord, xs: seq<ChunkSequences.FastaRecord>)
    ensures RecordLengths([x] + xs) == [|x.sequence|] + RecordLengths(xs)
  {
    assert ([x] + xs)[1..] == xs;
  }

  /**
   * A FASTA file that starts with a header: the first header bumps length 0,
   * and every record but the last is counted by its length.
   */
  lemma FastaLengthsSkipLastRecord(header: string, lines: seq<string>)
    requires ChunkSequences.IsHeaderLine(header)
    ensures var records := ChunkSequences.FastaRecords([header] + lines);
      && |records| >= 1
      && FastaLengths([header] + lines) == [0] + RecordLengths(records[..|records| - 1])
  {
    StripKeepsFirst(header);
    var all := [header] + lines;
    assert all[0] == header && all[1..] == lines;
    var open := ChunkSequences.FastaReader(Strip(header), "", []);
    assert ChunkSequences.FastaStep(ChunkSequences.Start, header) == open;
    assert ChunkSequences.ReadFasta(ChunkSequences.Start, all) == ChunkSequences.ReadFasta(open, lines);
    LengthsOfClosedRecords(open, lines);
  }

  /** Body lines before any header only add to the pending length. */
  lemma {:induction false} FastaLengthsBody(sequence: string, body: seq<string>, rest: seq<string>)
    requires ChunkSequences.NoHeaderLines(body)
    ensures FastaLengthsFrom(sequence, body + rest) == FastaLengthsFrom(sequence + ChunkSequences.Body(body), rest)
    decreases |body|
  {
    if body == [] {
      assert body + rest == rest;
      assert sequence + "" == sequence;
    } else {
      var line := body[0];
      assert !ChunkSequences.IsHeaderLine(line);
      assert (body + rest)[0] == line && (body + rest)[1..] == body[1..] + rest;
      var piece := ChunkSequences.Piece(line);
      assert FastaLengthsFrom(sequence, body + rest) == FastaLengthsFrom(sequence + piece, body[1..] + rest) by {
        if Skippable(line) {
          assert sequence + piece == sequence;
        }
      }
      FastaLengthsBody(sequence + piece, body[1..], rest);
      ChunkSequences.BodyCons(sequence, body);
    }
  }

  /**
   * Text before the first header is not discarded as it is by the chunker:
   * the first header bumps its length, as if it were a record of its own.
   */
  lemma BodyBeforeFirstHeaderCounted(preamble: seq<string>, header: string, lines: seq<string>)
    requires ChunkSequences.NoHeaderLines(preamble) && ChunkSequences.IsHeaderLine(header)
    ensures var records := ChunkSequences.FastaRecords(preamble + [header] + lines);
      && records == ChunkSequences.FastaRecords([header] + lines)
      && |records| >= 1
      && FastaLengths(preamble + [header] + lines)
         == [|ChunkSequences.Body(preamble)|] + RecordLengths(records[..|records| - 1])
  {
    assert preamble + [header] + lines == preamble + ([header] + lines);
    ChunkSequences.DiscardsBodyBeforeFirstHeader(preamble, [header] + lines);
    FastaLengthsBody("", preamble, [header] + lines);
    FastaLengthsSkipLastRecord(header, lines);
    assert "" + ChunkSequences.Body(preamble) == ChunkSequences.Body(preamble);
    assert ([header] + lines)[0] == header && ([header] + lines)[1..] == lines;
    FastaLengthsAt(ChunkSequences.Body(preamble), [header] + lines, 0);
    FastaLengthsAt("", [header] + lines, 0);
    var records := ChunkSequences.FastaRecords([header] + lines);
    var tail := FastaLengthsFrom("", lines);
    assert FastaLengths([header] + lines) == [0] + tail;
    assert ([0] + tail)[1..] == tail;
    assert tail == RecordLengths(records[..|records| - 1]);
  }

  /** Exactly one length is bumped per header line, whatever comes before or between them. */
  lemma {:induction false} FastaLengthsFromCount(sequence: string, lines: seq<string>)
    ensures |FastaLengthsFrom(sequence, lines)| == ChunkSequences.CountHeaderLines(lines)
    decreases |lines|
  {
    if lines != [] {
      if Skippable(lines[0]) {
        FastaLengthsFromCount(sequence, lines[1..]);
      } else if StartsWith(lines[0], '>') {
        FastaLengthsFromCount("", lines[1..]);
      } else {
        FastaLengthsFromCount(sequence + Strip(lines[0]), lines[1..]);
      }
    }
  }

  /** The counter bumps as many lengths as the chunker reads records. */
  lemma FastaBumpsPerRecord(lines: seq<string>)
    ensures |FastaLengths(lines)| == |ChunkSequences.FastaRecords(lines)|
  {
    FastaLengthsFromCount("", lines);
    ChunkSequences.FastaRecordCount(lines);
  }

  /** Without a header line nothing is counted at all. */
  lemma NoHeaderNoLengths(lines: seq<string>)
    requires ChunkSequences.NoHeaderLines(lines)
    ensures FastaLengths(lines) == []
  {
    FastaLengthsBody("", lines, []);
    assert lines + [] == lines;
  }

  // ---------------------------------------------------------------------------
  // sequence_lengths_in_fastq

  /** Lengths of FASTQ sequences, first to last. */
  function SequenceLengths(records: seq<FastqRecord>): (r: seq<nat>)
    ensures |r| == |records|
    ensures forall j :: 0 <= j < |records| ==> r[j] == |records[j].sequence|
  {
    if records == [] then []
    else SequenceLengths(records[..|records| - 1]) + [|records[|records| - 1].sequence|]
  }

  function FastqLengths(lines: seq<string>): seq<nat>
  {
    SequenceLengths(ParseFastq(lines).records)
  }

  /** Written records are counted one by one, by the length of their sequence. */
  lemma FastqLengthsOfWritten(records: seq<FastqRecord>)
    requires forall i :: 0 <= i < |records| ==> Writable(records[i])
    ensures FastqLengths(FormatFastq(records)) == SequenceLengths(records)
  {
    ParseFormatFastq(records);
  }

  /** sequence_lengths_in_fastq: a header, its stripped sequence, two lines passed over. */
  method CountFastqLengths(lines: seq<string>) returns (statistics: Histogram, error: Option<PyError>)
    ensures error == (if ParseFastq(lines).truncated then Some(StopIteration) else None)
    ensures error == None ==> statistics == HistogramOf(FastqLengths(lines))
  {
    statistics := map[];
    ghost var done: seq<FastqRecord> := [];
    var i := 0;
    while i < |lines|
      invariant 0 <= i <= |lines|
      invariant ParseFastq(lines).records == done + ParseFastq(lines[i..]).records
      invariant ParseFastq(lines).truncated == ParseFastq(lines[i..]).truncated
      invariant statistics == HistogramOf(SequenceLengths(done))
    {
      var line := lines[i];
      ParseFastqAt(lines, i);
      if IsBlank(line) || StartsWith(line, '#') {
        i := i + 1;
        continue;
      }
      if i + 1 >= |lines| {
        return statistics, Some(StopIteration);
      }
      var sequence := Strip(lines[i + 1]);
      statistics := statistics[|sequence| := Count(statistics, |sequence|) + 1];
      if i + 3 >= |lines| {
        // the `+` line or the quality line is missing
        return statistics, Some(StopIteration);
      }
      var record := FastqRecord(Strip(line), sequence, lines[i + 3]);
      ShiftHead(done, record, ParseFastq(lines[i + 4..]).records, ParseFastq(lines[i..]).records);
      assert (done + [record])[..|done|] == done;
      done := done + [record];
      i := i + 4;
    }
    assert ParseFastq(lines[i..]) == FastqScan([], false);
    assert done + [] == done;
    return statistics, None;
  }

  // ---------------------------------------------------------------------------
  // main: one dictionary per file

  /** The function bound to `get_sequence_lengths` by the sniffing loop. */
  datatype Counter = FastaCounter | FastqCounter

  /** An input file by name, with the lines it holds (already decompressed when it is gzipped). */
  datatype InputFile = InputFile(name: string, lines: seq<string>)

  /** What calling a counter on a file gives: its dictionary, or the exception it raises. */
  function RunCounter(counter: Counter, lines: seq<string>): Result<Histogram>
  {
    match counter
    case FastaCounter => Ok(HistogramOf(FastaLengths(lines)))
    case FastqCounter =>
      if ParseFastq(lines).truncated then Err(StopIteration) else Ok(HistogramOf(FastqLengths(lines)))
  }

  method CountLengths(counter: Counter, lines: seq<string>) returns (statistics: Histogram, error: Option<PyError>)
    ensures RunCounter(counter, lines) == (if error == None then Ok(statistics) else Err(error.value))
  {
    match counter {
      case FastaCounter =>
        statistics := CountFastaLengths(lines);
        error := None;
      case FastqCounter =>
        statistics, error := CountFastqLengths(lines);
    }
  }

  /** The state of main's loop over the files. */
  datatype Collection = Collection(
    counter: Option<Counter>,
    statistics: map<string, Histogram>,
    stderr: seq<string>,
    error: Option<PyError>)

  const NoFiles := Collection(None, map[], [], None)

  /**
   * One round of main's loop: sniff the file, rebind the counter for FASTA or
   * FASTQ (an unknown or empty file keeps the previous binding, or has none),
   * then count the file with it.
   */
  function CollectStep(c: Collection, file: InputFile): Collection
  {
    var format := Classify(file.lines);
    if format == Truncated then c.(error := Some(StopIteration))
    else
      var counter := match format
        case Fasta => Some(FastaCounter)
        case Fastq => Some(FastqCounter)
        case _ => c.counter;
      var stderr := if format == Unknown then c.stderr + [UnknownFormatMessage(file.name)] else c.stderr;
      match counter
      case None => Collection(None, c.statistics, stderr, Some(UnboundLocalError))
      case Some(f) =>
        match RunCounter(f, file.lines)
        case Err(e) => Collection(counter, c.statistics, stderr, Some(e))
        case Ok(h) => Collection(counter, c.statistics[file.name := h], stderr, None)
  }

  /** main's loop over the files; the first exception ends it. */
  function CollectFrom(c: Collection, files: seq<InputFile>): Collection
    decreases |files|
  {
    if files == [] || c.error != None then c else CollectFrom(CollectStep(c, files[0]), files[1..])
  }

  /** Every file read without an exception has its dictionary, under its name. */
  lemma {:induction false} CollectedNames(c: Collection, files: seq<InputFile>)
    ensures var r := CollectFrom(c, files);
      r.error == None ==>
        c.error == None && c.statistics.Keys <= r.statistics.Keys
        && forall j :: 0 <= j < |files| ==> files[j].name in r.statistics
    decreases |files|
  {
    if files != [] && c.error == None {
      var s := CollectStep(c, files[0]);
      CollectedNames(s, files[1..]);
      var r := CollectFrom(c, files);
      if r.error == None {
        forall j | 0 <= j < |files| ensures files[j].name in r.statistics {
          if j > 0 { assert files[j] == files[1..][j - 1]; }
        }
      }
    }
  }

  /** A first file that is neither FASTA nor FASTQ leaves `get_sequence_lengths` unbound. */
  lemma UnrecognisedFirstFile(file: InputFile, rest: seq<InputFile>)
    requires Classify(file.lines) == Unknown || Classify(file.lines) == NoContent
    ensures var r := CollectFrom(NoFiles, [file] + rest);
      && r.error == Some(UnboundLocalError)
      && r.stderr == (if Classify(file.lines) == Unknown then [UnknownFormatMessage(file.name)] else [])
  {
    var files := [file] + rest;
    assert files[0] == file && files[1..] == rest;
    var s := CollectStep(NoFiles, file);
    assert s.error == Some(UnboundLocalError);
    assert CollectFrom(s, rest) == s;
  }

  /** A later unrecognised file is counted with the counter bound for an earlier one. */
  lemma UnrecognisedFileReusesCounter(c: Collection, file: InputFile, counter: Counter)
    requires c.error == None && c.counter == Some(counter)
    requires Classify(file.lines) == Unknown || Classify(file.lines) == NoContent
    ensures var s := CollectStep(c, file);
      && s.counter == Some(counter)
      && match RunCounter(counter, file.lines)
         case Ok(h) => s.error == None && s.statistics == c.statistics[file.name := h]
         case Err(e) => s.error == Some(e)
  {
  }

  /** One round of main's loop: sniff the file, rebind the counter, count the file. */
  method CollectFile(c: Collection, file: InputFile) returns (r: Collection)
    requires c.error == None
    ensures r == CollectStep(c, file)
  {
    var format := SniffFormat(file.lines);
    if format == Truncated {
      return c.(error := Some(StopIteration));
    }
    var counter := c.counter;
    if format == Fasta {
      counter := Some(FastaCounter);
    } else if format == Fastq {
      counter := Some(FastqCounter);
    }
    var stderr := c.stderr;
    if format == Unknown {
      stderr := stderr + [UnknownFormatMessage(file.name)];
    }
    if counter == None {
      return Collection(None, c.statistics, stderr, Some(UnboundLocalError));
    }
    var h, e := CountLengths(counter.value, file.lines);
    if e != None {
      return Collection(counter, c.statistics, stderr, e);
    }
    return Collection(counter, c.statistics[file.name := h], stderr, None);
  }

  /** main's loop over the files; the first exception ends it. */
  method CollectLengths(files: seq<InputFile>) returns (statistics: map<string, Histogram>, stderr: seq<string>, error: Option<PyError>)
    ensures var c := CollectFrom(NoFiles, files);
      statistics == c.statistics && stderr == c.stderr && error == c.error
  {
    var c := NoFiles;
    var i := 0;
    while i < |files| && c.error == None
      invariant 0 <= i <= |files|
      invariant CollectFrom(c, files[i..]) == CollectFrom(NoFiles, files)
    {
      assert files[i..][0] == files[i] && files[i..][1..] == files[i + 1..];
      c := CollectFile(c, files[i]);
      i := i + 1;
    }
    assert CollectFrom(c, files[i..]) == c;
    return c.statistics, c.stderr, c.error;
  }

  // ---------------------------------------------------------------------------
  // main: the longest length and the table

  /** `max(*keys)`: Python refuses fewer than two arguments here, one int being no iterable. */
  method MaxOfArguments(keys: set<nat>) returns (m: nat, error: Option<PyError>)
    ensures error == (if |keys| < 2 then Some(TypeError) else None)
    ensures error == None ==> m in keys && forall x :: x in keys ==> x <= m
  {
    if |keys| < 2 {
      return 0, Some(TypeError);
    }
    var x :| x in keys;
    m := x;
    var rest := keys - {x};
    while rest != {}
      invariant rest <= keys && m in keys
      invariant forall y :: y in keys && y !in rest ==> y <= m
      decreases |rest|
    {
      var y :| y in rest;
      if y > m {
        m := y;
      }
      rest := rest - {y};
    }
    return m, None;
  }

  /** Every dictionary has at least two lengths, so `max(*keys)` accepts it. */
  predicate AllMeasurable(statistics: map<string, Histogram>)
  {
    forall name :: name in statistics ==> |statistics[name].Keys| >= 2
  }

  /** L is the longest length in any dictionary, or 0 when there are none. */
  predicate IsLongest(statistics: map<string, Histogram>, L: nat)
  {
    && (forall name, x :: name in statistics && x in statistics[name] ==> x <= L)
    && (L == 0 || exists name :: name in statistics && L in statistics[name])
  }

  /** The longest length is determined by the dictionaries. */
  lemma LongestUnique(statistics: map<string, Histogram>, a: nat, b: nat)
    requires IsLongest(statistics, a) && IsLongest(statistics, b)
    ensures a == b
  {
    if a != 0 {
      var name :| name in statistics && a in statistics[name];
      assert a <= b;
    }
    if b != 0 {
      var name :| name in statistics && b in statistics[name];
      assert b <= a;
    }
  }

  /** `for file_stats in statistics.values(): longest = max(longest, max(*file_stats.keys()))`. */
  method LongestReadLength(statistics: map<string, Histogram>) returns (longest: nat, error: Option<PyError>)
    ensures error == (if AllMeasurable(statistics) then None else Some(TypeError))
    ensures error == None ==> IsLongest(statistics, longest)
  {
    longest := 0;
    var rest := statistics.Keys;
    while rest != {}
      invariant rest <= statistics.Keys
      invariant forall name :: name in statistics && name !in rest ==> |statistics[name].Keys| >= 2
      invariant forall name, x :: name in statistics && name !in rest && x in statistics[name] ==> x <= longest
      invariant longest == 0 || exists name :: name in statistics && longest in statistics[name]
      decreases |rest|
    {
      var name :| name in rest;
      var m, e := MaxOfArguments(statistics[name].Keys);
      if e != None {
        return longest, e;
      }
      if m > longest {
        longest := m;
      }
      rest := rest - {name};
    }
    return longest, None;
  }

  function Names(files: seq<InputFile>): (names: seq<string>)
    ensures |names| == |files|
    ensures forall j :: 0 <= j < |files| ==> names[j] == files[j].name
  {
    if files == [] then [] else [files[0].name] + Names(files[1..])
  }

  /** `"sequence_length\t" + "\t".join(files)`. */
  function HeaderRow(names: seq<string>): string
  {
    "sequence_length\t" + Join(names, '\t')
  }

  /** The count of length L in each file's dictionary, as text, in the order of the files. */
  function Cells(names: seq<string>, statistics: map<string, Histogram>, L: nat): (cells: seq<string>)
    requires forall j :: 0 <= j < |names| ==> names[j] in statistics
    ensures |cells| == |names|
    ensures forall j :: 0 <= j < |names| ==> cells[j] == NatToString(Count(statistics[names[j]], L))
  {
    if names == [] then [] else [NatToString(Count(statistics[names[0]], L))] + Cells(names[1..], statistics, L)
  }

  /** `"{}\t{}".format(L, "\t".join(counts))`. */
  function DataRow(names: seq<string>, statistics: map<string, Histogram>, L: nat): string
    requires forall j :: 0 <= j < |names| ==> names[j] in statistics
  {
    NatToString(L) + "\t" + Join(Cells(names, statistics, L), '\t')
  }

  /** The rows for lengths 1 to n. */
  function Rows(names: seq<string>, statistics: map<string, Histogram>, n: nat): (rows: seq<string>)
    requires forall j :: 0 <= j < |names| ==> names[j] in statistics
    ensures |rows| == n
    ensures forall L :: 1 <= L <= n ==> rows[L - 1] == DataRow(names, statistics, L)
  {
    if n == 0 then [] else Rows(names, statistics, n - 1) + [DataRow(names, statistics, n)]
  }

  /** The whole table main prints. */
  function Report(names: seq<string>, statistics: map<string, Histogram>, longest: nat): seq<string>
    requires forall j :: 0 <= j < |names| ==> names[j] in statistics
  {
    [HeaderRow(names)] + Rows(names, statistics, longest)
  }

  /** The table printing of main: the header row, then one row per length from 1 to the longest. */
  method RenderReport(names: seq<string>, statistics: map<string, Histogram>, longest: nat) returns (out: seq<string>)
    requires forall j :: 0 <= j < |names| ==> names[j] in statistics
    ensures out == Report(names, statistics, longest)
  {
    out := [HeaderRow(names)];
    var readLength := 0;
    while readLength < longest
      invariant readLength <= longest
      invariant out == [HeaderRow(names)] + Rows(names, statistics, readLength)
    {
      var counts := Cells(names, statistics, readLength + 1);
      out := out + [NatToString(readLength + 1) + "\t" + Join(counts, '\t')];
      readLength := readLength + 1;
    }
  }

  /** Cutting a data row at its tabs gives the length and then one count per file, each read back by `int()`. */
  lemma DataRowFields(names: seq<string>, statistics: map<string, Histogram>, L: nat)
    requires |names| >= 1
    requires forall j :: 0 <= j < |names| ==> names[j] in statistics
    ensures var fields := Split(DataRow(names, statistics, L), '\t');
      && |fields| == |names| + 1
      && ParseNat(fields[0]) == Some(L)
      && forall j :: 0 <= j < |names| ==> ParseNat(fields[j + 1]) == Some(Count(statistics[names[j]], L))
  {
    var cells := Cells(names, statistics, L);
    var parts := [NatToString(L)] + cells;
    assert parts[1..] == cells;
    assert Join(parts, '\t') == DataRow(names, statistics, L);
    forall j | 0 <= j < |parts| ensures '\t' !in parts[j] {
      if j == 0 {
        NatToStringAvoids(L, '\t');
      } else {
        NatToStringAvoids(Count(statistics[names[j - 1]], L), '\t');
      }
    }
    SplitJoin(parts, '\t');
    ParseNatToString(L);
    forall j | 0 <= j < |names| ensures ParseNat(parts[j + 1]) == Some(Count(statistics[names[j]], L)) {
      ParseNatToString(Count(statistics[names[j]], L));
    }
  }

  /** Cutting the header row at its tabs gives the column title and the file names, when no name holds a tab. */
  lemma HeaderRowFields(names: seq<string>)
    requires |names| >= 1
    requires forall j :: 0 <= j < |names| ==> '\t' !in names[j]
    ensures Split(HeaderRow(names), '\t') == ["sequence_length"] + names
  {
    var parts := ["sequence_length"] + names;
    assert parts[1..] == names;
    assert Join(parts, '\t') == HeaderRow(names);
    SplitJoin(parts, '\t');
  }

  /**
   * main: collect a dictionary per file, find the longest length, print the
   * table. Nothing reaches stdout when any step raises.
   */
  method LengthStatisticsMain(files: seq<InputFile>) returns (stdout: seq<string>, stderr: seq<string>, error: Option<PyError>)
    ensures var c := CollectFrom(NoFiles, files);
      && stderr == c.stderr
      && (c.error != None ==> stdout == [] && error == c.error)
      && (c.error == None && !AllMeasurable(c.statistics) ==> stdout == [] && error == Some(TypeError))
      && (c.error == None && AllMeasurable(c.statistics) ==>
            && error == None && |stdout| >= 1
            && (forall j :: 0 <= j < |files| ==> files[j].name in c.statistics)
            && IsLongest(c.statistics, |stdout| - 1)
            && stdout == Report(Names(files), c.statistics, |stdout| - 1))
  {
    var statistics;
    statistics, stderr, error := CollectLengths(files);
    if error != None {
      return [], stderr, error;
    }
    var longest;
    longest, error := LongestReadLength(statistics);
    if error != None {
      return [], stderr, error;
    }
    CollectedNames(NoFiles, files);
    stdout := RenderReport(Names(files), statistics, longest);
  }
}
