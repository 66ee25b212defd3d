# Chunking, length statistics and WIG conversion, modelled in Dafny

This project models three small command-line tools for sequencing data from
the `scripts` collection and proves properties of the model.

- **The sequence chunker** (`sequences/chunk_sequences.py`) sniffs whether a
  file is FASTA or FASTQ. It then cuts every sequence into chunks of a given
  size. The chunks are either sliding windows (every offset) or consecutive
  fixed blocks (the last one may be short). Each chunk is printed under a
  label `"<header> - <i>"`. For FASTQ the chunker prints the matching slice
  of the quality line after a `+` line.
- **The length-statistics tool** (`fastq/sequence_length_statistics.py`)
  sniffs each file in the same way. It fills a `{length: count}` dictionary
  per file. It then prints a tab-separated table with one row per length,
  from 1 to the longest length seen in any file.
- **The WIG converter** (`file_convertion/wig/fixedToVariableStep.py`) is a
  line-by-line state machine. It rewrites each `fixedStep` block of a
  wiggle track as a `variableStep` block by giving every value its explicit
  position, and copies `variableStep` blocks through.

A file is a sequence of raw lines, `seq<string>`, each still carrying its
line terminator. Everything a tool prints is a sequence of output lines.
Python exceptions that the input can trigger are part of the outcome, as a
`PyError` value next to whatever was printed before them:

- `StopIteration` from `next()` on a truncated record;
- `UnboundLocalError` when no counter was ever bound;
- `TypeError` from `max(*keys)`;
- `IndexError`, `KeyError` and `ValueError` from the WIG declaration parser.

Modules:

- `Outcome` (outcome.dfy): `Option`, `Result` and the Python exceptions.
- `Text` (text.dfy): Python's `strip`, `split`, `join`, `str(n)` and `int(s)`.
- `Sniffer` (sniffer.dfy): the format-detection loop both sequence tools start with.
- `Chunks` (chunks.dfy): sliding windows, fixed blocks and the label framing.
- `FastqRecords` (fastq_records.dfy): how both tools read FASTQ records four lines at a time.
- `ChunkSequences` (chunk_sequences.dfy): the chunker.
- `Histograms` (histogram.dfy): the `{length: count}` dictionaries.
- `LengthStatistics` (sequence_length_statistics.dfy): the length-statistics tool.
- `FixedToVariableStep` (wig.dfy): the WIG converter.

Each loop of the tools is a method. It is proved equal to a specification
function, and the properties are proved as lemmas about that function.

## Model

| member | source | states |
|---|---|---|
| Sniffer.SniffFormat | sequences/chunk_sequences.py:14-35 | The sniffing loop skips blank and `#` lines. It returns FASTA on `>`. It returns FASTQ on `@` when the line two further on starts with `+`, and unknown otherwise. It returns truncated when `next()` runs out, and no verdict for a file without content (the reference function `Classify`). |
| Sniffer.Classify | sequences/chunk_sequences.py:14-35 | Reference definition of the sniffing verdict: the first line that is neither blank nor `#` decides. `>` means FASTA. `@` means FASTQ when the line two further on starts with `+`, unknown otherwise, and truncated when that line is missing. Any other first character means unknown. A file without such a line gets no verdict. |
| Sniffer.UnknownFormatMessage | sequences/chunk_sequences.py:31 | Reference definition of the stderr message `Unknown file format: <file>`, which both tools print. |
| Text.IsBlank | fastq/sequence_length_statistics.py:15 | Reference definition of `not line.split()`: every character is whitespace. |
| Text.Skippable | fastq/sequence_length_statistics.py:15 | Reference definition of the skip test of every loop: the line is blank or starts with `#`. |
| Sniffer.ClassifySkipsPreamble | fastq/sequence_length_statistics.py:14-16 | Any number of leading blank and comment lines leave the verdict unchanged. |
| Sniffer.MissingPlusIsUnknown | sequences/chunk_sequences.py:23-31 | For every file whose first content line starts with `@` and whose line two further on exists and does not start with `+`, the verdict is unknown. |
| Text.StripIdempotent | sequences/chunk_sequences.py:54 | Stripping a stripped line changes nothing. |
| Text.Strip | sequences/chunk_sequences.py:54 | Reference definition of `str.strip()`: leading and trailing whitespace is removed, so the result is never longer than the line. |
| Text.Split | file_convertion/wig/fixedToVariableStep.py:26 | Reference definition of `str.split(sep)`: there is at least one piece, and no piece contains the separator. |
| Text.ParseInt | file_convertion/wig/fixedToVariableStep.py:27 | Reference definition of `int(s)`: an optional sign followed by decimal digits, and no value otherwise (ValueError). |
| Text.NatToString | fastq/sequence_length_statistics.py:43 | Reference definition of `str(n)` for a natural number: its decimal digits, most significant first, and never empty. |
| Text.IntToString | file_convertion/wig/fixedToVariableStep.py:45 | Reference definition of `str(i)` for any integer: a `-` before the digits of a negative number. |
| Text.Slice | sequences/chunk_sequences.py:49 | Reference definition of Python's `s[lo:hi]` for non-negative bounds. Both bounds are clipped to the length, and the result is empty when they cross. Inside the bounds it is `s[lo..hi]`, and character i is `s[lo + i]`. |
| Text.StripEmptyIffBlank | sequences/chunk_sequences.py:42 | `line.strip()` is empty exactly when the line is all whitespace, so the two blank tests agree (`not line.strip()` in the chunker and `not line.split()` elsewhere). |
| Text.StripTrimmedLine | sequences/chunk_sequences.py:57 | A line without outer whitespace, followed by a terminator, strips back to itself. |
| Text.JoinSplit | fastq/sequence_length_statistics.py:41 | Joining the pieces of a split with the separator gives back the text. |
| Text.SplitJoin | fastq/sequence_length_statistics.py:44 | Splitting a join of separator-free pieces gives back the pieces, so a TSV row can be read back. |
| Text.SplitHasSecondPiece | file_convertion/wig/fixedToVariableStep.py:26 | `split("=")` yields a second piece exactly when the token contains `=`. |
| Text.ParseNatToString | fastq/sequence_length_statistics.py:43 | `int(str(n)) == n` for every count. |
| Text.IntToStringRoundTrip | file_convertion/wig/fixedToVariableStep.py:45 | `int(str(i)) == i` for every position, negative ones included. |
| Text.NatToStringDigits | fastq/sequence_length_statistics.py:44 | `str(n)` of a natural number consists of decimal digits only. |
| Text.NatToStringAvoids | fastq/sequence_length_statistics.py:44 | `str(n)` never contains a tab, so a number cell never splits a row. |
| Chunks.Windows | sequences/chunk_sequences.py:47-49 | There are `len - k + 1` windows (none when the sequence is shorter than k). Window i is the length-k slice at offset i. |
| Chunks.Blocks | sequences/chunk_sequences.py:51-53 | `itertools.batched` gives `ceil(len / k)` blocks. Each block has 1 to k letters, and all but the last have exactly k. |
| Chunks.BlocksConcat | sequences/chunk_sequences.py:51-53 | Concatenating the blocks gives back the sequence. |
| Chunks.BlockCountIsCeiling | sequences/chunk_sequences.py:85 | The number of blocks is `(n + k - 1) / k`. |
| Chunks.BlockAt | sequences/chunk_sequences.py:51-53 | Block j starts at offset j*k inside the sequence and is the slice `[j*k : j*k+k]`. |
| Chunks.WindowOffsets | sequences/chunk_sequences.py:79 | Reference definition of `range(len(sequence) - k + 1)`: the offsets 0 to n-k, none when n < k. |
| Chunks.BlockOffsets | sequences/chunk_sequences.py:85 | Reference definition of `range(0, len(sequence), k)`: the multiples of k below n. |
| Chunks.WindowOffsetsSliceWindows | sequences/chunk_sequences.py:79-81 | The FASTQ sliding loop slices the same windows as the FASTA sliding loop. |
| Chunks.BlockOffsetsSliceBlocks | sequences/chunk_sequences.py:85-87 | `range(0, len, k)` slicing yields exactly the batched blocks. |
| Chunks.SlidingQualityWindows | sequences/chunk_sequences.py:79-83 | When the quality text is at least as long as the sequence, each sliding quality chunk is the quality window at the same offset. The line terminator never shows. |
| Chunks.FixedQualityBlocks | sequences/chunk_sequences.py:85-89 | Fixed quality chunks are the quality blocks. The last one also carries the line terminator when the length is not a multiple of k. |
| Chunks.ChunkingEdgeCases | sequences/chunk_sequences.py:47-53 | A chunk size equal to the length gives one block. An empty sequence gives no blocks. A size beyond the length gives no windows. Size 1 gives one window per letter. |
| Chunks.FastaFrames | sequences/chunk_sequences.py:48-49 | Output line 2i is the label `"<header> - i"` and line 2i+1 is chunk i. |
| Chunks.FastqFrames | sequences/chunk_sequences.py:80-83 | Output line 4i is the label, 4i+1 the sequence chunk, 4i+2 `+` and 4i+3 the quality chunk. |
| Chunks.Label | sequences/chunk_sequences.py:48 | Reference definition of `"{} - {}".format(header, i)`. |
| FastqRecords.ParseFormatFastq | sequences/chunk_sequences.py:71-77 | Reading written FASTQ records four lines at a time gives back the same records, with no truncation. |
| FastqRecords.ParseFastq | sequences/chunk_sequences.py:71-77 | Reference definition of how both tools read FASTQ records. Blank and `#` lines are skipped while looking for a header. A header takes its next three lines as sequence, `+` line and quality: header and sequence are stripped and the quality is kept as read. The scan is truncated when fewer than three lines follow. |
| FastqRecords.ParseFastqSkipsPreamble | fastq/sequence_length_statistics.py:65-67 | Leading blank and comment lines are skipped before a record. |
| ChunkSequences.ReadFastaAppend | sequences/chunk_sequences.py:41-57 | Reading two pieces of a file one after the other is reading the whole file. |
| ChunkSequences.FastaStep | sequences/chunk_sequences.py:42-57 | Reference definition of one round of chunk_fasta's loop. A blank or `#` line changes nothing. A header closes the open record, if any, and opens a new one under the stripped header. Any other line appends its stripped text to the open sequence. |
| ChunkSequences.ReadFasta | sequences/chunk_sequences.py:41-57 | Reference definition of chunk_fasta's loop: FastaStep over the lines in order. |
| ChunkSequences.FastaRecords | sequences/chunk_sequences.py:38-67 | Reference definition of the records chunk_fasta chunks: those closed by the loop, plus the last one flushed after it when a header was seen. |
| ChunkSequences.ReadBody | sequences/chunk_sequences.py:56-57 | Body lines append their stripped text to the open sequence. |
| ChunkSequences.DiscardsBodyBeforeFirstHeader | sequences/chunk_sequences.py:44-59 | Sequence lines before the first header are never chunked. |
| ChunkSequences.FastaRecordsCons | sequences/chunk_sequences.py:44-57 | A header followed by body lines makes one record: the stripped header and the concatenated stripped body. |
| ChunkSequences.RecordPerHeader | sequences/chunk_sequences.py:44-55 | Each header line adds exactly one record, and every record's header starts with `>`. |
| ChunkSequences.FastaRecordCount | sequences/chunk_sequences.py:44-67 | The number of chunked records equals the number of header lines. |
| ChunkSequences.WrappedBody | sequences/chunk_sequences.py:56-57 | Sequence lines wrapped at any width read back as their concatenation. |
| ChunkSequences.ReadFormatFasta | sequences/chunk_sequences.py:38-57 | Reading FASTA records written with any line width gives back the same records. |
| ChunkSequences.FastqChunksLikeFasta | sequences/chunk_sequences.py:78-89 | The FASTQ sequence chunks are the FASTA chunks of the same sequence, in both modes. |
| ChunkSequences.FastaOutput | sequences/chunk_sequences.py:44-67 | Reference definition of chunk_fasta's stdout: the chunk frames of each record, record after record. |
| ChunkSequences.FastqOutput | sequences/chunk_sequences.py:71-89 | Reference definition of chunk_fastq's stdout: each record's sequence and quality sliced at the same offsets, record after record. |
| ChunkSequences.EmitWindows | sequences/chunk_sequences.py:47-49 | The sliding loop prints the frames of all windows. |
| ChunkSequences.EmitBlocks | sequences/chunk_sequences.py:51-53 | The batched loop prints the frames of all blocks. |
| ChunkSequences.EmitFastaRecord | sequences/chunk_sequences.py:45-53 | One record prints the frames of its chunks in the chosen mode. |
| ChunkSequences.ChunkFasta | sequences/chunk_sequences.py:38-67 | chunk_fasta prints the chunk frames of every record read from the file, the last one included, in order. |
| ChunkSequences.EmitFastqWindows | sequences/chunk_sequences.py:79-83 | The FASTQ sliding loop prints the sequence and quality slices at every window offset. |
| ChunkSequences.EmitFastqBlocks | sequences/chunk_sequences.py:85-89 | The FASTQ fixed loop prints the slices at every multiple of k, labelled by block number. |
| ChunkSequences.EmitFastqRecord | sequences/chunk_sequences.py:78-89 | One FASTQ record prints its frames in the chosen mode. |
| ChunkSequences.OffsetInRange | sequences/chunk_sequences.py:85-86 | An offset j*k lies inside the sequence exactly when j is a block number, so `int(i/k)` numbers the blocks 0, 1, … |
| ChunkSequences.ChunkFastq | sequences/chunk_sequences.py:70-89 | chunk_fastq prints the frames of every complete record. StopIteration is raised exactly when the file ends inside a record. |
| ChunkSequences.ChunkSequences | sequences/chunk_sequences.py:9-35 | main prints the FASTA or FASTQ chunking according to the verdict. An unknown format gives only the stderr message. An empty file prints nothing. A truncated `@` record raises StopIteration. |
| Histograms.Bump | fastq/sequence_length_statistics.py:55 | `statistics.get(x, 0) + 1` adds one to x's count, adds x as a key and leaves the other counts alone. |
| Histograms.Count | fastq/sequence_length_statistics.py:43 | Reference definition of `statistics.get(x, 0)`. |
| Histograms.HistogramOf | fastq/sequence_length_statistics.py:55 | Reference definition of the dictionary a counting loop leaves: Bump applied to each length in order, starting from `{}`. |
| Histograms.HistogramCounts | fastq/sequence_length_statistics.py:55 | Each length is counted as often as it occurs. The keys are exactly the lengths seen, and no count is zero. |
| Histograms.HistogramOrderFree | fastq/sequence_length_statistics.py:69 | The dictionary depends only on the multiset of lengths, not on their order. |
| LengthStatistics.CountFastaLengths | fastq/sequence_length_statistics.py:47-59 | The FASTA counter's dictionary is the histogram of the lengths bumped at each header. |
| LengthStatistics.FastaLengthsFrom | fastq/sequence_length_statistics.py:51-58 | Reference definition of the lengths the FASTA counter bumps, in order. A blank or `#` line is skipped. A header bumps the length of the pending sequence and resets it. Any other line appends its stripped text. |
| LengthStatistics.FastaLengthsFromCount | fastq/sequence_length_statistics.py:54-55 | Exactly one length is bumped per header line, for any file and any pending sequence. |
| LengthStatistics.FastaBumpsPerRecord | fastq/sequence_length_statistics.py:54-55 | The FASTA counter bumps as many lengths as the chunker reads records from the same file. |
| LengthStatistics.LengthsOfClosedRecords | fastq/sequence_length_statistics.py:51-58 | From an open record on, the bumped lengths are those of the records the chunker reads from the same lines, in order, without the last record. |
| LengthStatistics.FastaLengthsSkipLastRecord | fastq/sequence_length_statistics.py:54-59 | For a file that starts with a header, length 0 is bumped first. Then every record except the last is counted by its length, and the last record is never counted. |
| LengthStatistics.BodyBeforeFirstHeaderCounted | fastq/sequence_length_statistics.py:54-58 | Sequence text before the first header is counted as one extra length, although the chunker discards it. |
| LengthStatistics.NoHeaderNoLengths | fastq/sequence_length_statistics.py:54-56 | A file without header lines gives an empty dictionary. |
| LengthStatistics.FastqLengthsOfWritten | fastq/sequence_length_statistics.py:65-71 | For written FASTQ records, the counted lengths are the sequence lengths, one per record. |
| LengthStatistics.CountFastqLengths | fastq/sequence_length_statistics.py:62-72 | The FASTQ counter raises StopIteration exactly when the file ends inside a record. Otherwise it returns the histogram of the sequence lengths. |
| LengthStatistics.CountLengths | fastq/sequence_length_statistics.py:34 | Calling the bound counter gives its dictionary or its exception. |
| LengthStatistics.CollectStep | fastq/sequence_length_statistics.py:10-34 | Reference definition of one round of main's file loop. Truncated sniffing raises StopIteration. FASTA or FASTQ rebinds the counter. An unknown format adds the stderr message and keeps the previous binding. With no binding at all the round raises UnboundLocalError. Otherwise the file is counted under its name, or the counter's exception is raised. |
| LengthStatistics.CollectFrom | fastq/sequence_length_statistics.py:9-34 | Reference definition of main's file loop: CollectStep over the files in order, stopping at the first exception. |
| LengthStatistics.CollectedNames | fastq/sequence_length_statistics.py:9-34 | When the file loop ends without an exception, every file has a dictionary under its name. |
| LengthStatistics.UnrecognisedFirstFile | fastq/sequence_length_statistics.py:31-34 | An unknown or empty first file leaves `get_sequence_lengths` unbound, so main raises UnboundLocalError after the stderr message. |
| LengthStatistics.UnrecognisedFileReusesCounter | fastq/sequence_length_statistics.py:28-34 | A later unknown file is counted with the counter bound for an earlier file. |
| LengthStatistics.CollectFile | fastq/sequence_length_statistics.py:10-34 | One round of the file loop: sniff, rebind the counter, count the file or raise. |
| LengthStatistics.CollectLengths | fastq/sequence_length_statistics.py:9-34 | The file loop ends at the first exception, with the dictionaries and stderr lines collected so far. |
| LengthStatistics.MaxOfArguments | fastq/sequence_length_statistics.py:39 | `max(*keys)` raises TypeError for fewer than two keys. Otherwise it returns a key that bounds all keys. |
| LengthStatistics.LongestUnique | fastq/sequence_length_statistics.py:37-39 | The longest length is determined by the dictionaries, whatever order they are visited in. |
| LengthStatistics.LongestReadLength | fastq/sequence_length_statistics.py:37-39 | The outer max raises TypeError exactly when some dictionary has fewer than two keys. Otherwise it is the longest length of any file, or 0. |
| LengthStatistics.Names | fastq/sequence_length_statistics.py:41 | The column names are the file names, in command-line order. |
| LengthStatistics.Cells | fastq/sequence_length_statistics.py:43 | Column j of a row is file j's count of that length, 0 when absent. |
| LengthStatistics.Rows | fastq/sequence_length_statistics.py:42-44 | There is one row per length from 1 to n, in order, and row L is the row for length L. |
| LengthStatistics.HeaderRow | fastq/sequence_length_statistics.py:41 | Reference definition of `"sequence_length\t" + "\t".join(files)`. |
| LengthStatistics.DataRow | fastq/sequence_length_statistics.py:43-44 | Reference definition of the row for length L: L, then each file's count of L, joined with tabs. |
| LengthStatistics.Report | fastq/sequence_length_statistics.py:41-44 | Reference definition of the table: the header row, then the rows for lengths 1 to the longest. |
| LengthStatistics.RenderReport | fastq/sequence_length_statistics.py:41-44 | The printing loop prints the header row, then the rows for lengths 1 to the longest. |
| LengthStatistics.DataRowFields | fastq/sequence_length_statistics.py:42-44 | Splitting a row at tabs gives the length, then each file's count, as decimal numbers that read back exactly. |
| LengthStatistics.HeaderRowFields | fastq/sequence_length_statistics.py:41 | Splitting the header row at tabs gives `sequence_length` and the file names. |
| LengthStatistics.LengthStatisticsMain | fastq/sequence_length_statistics.py:7-44 | main prints the table only when no exception occurs. The table covers every file, and its row count is the longest length. Each exception of the file loop or of `max` is reported. |
| FixedToVariableStep.ParamsFromFails | file_convertion/wig/fixedToVariableStep.py:26 | Parsing the declaration fails, with IndexError, exactly when some token has no `=`. |
| FixedToVariableStep.ValueStopsAtSecondEquals | file_convertion/wig/fixedToVariableStep.py:26 | For a token `key=v1=tail` with any tail, the value is `v1`, the text between the first and the second `=`. Everything after the second `=` is dropped. |
| FixedToVariableStep.ParamsFrom | file_convertion/wig/fixedToVariableStep.py:26 | Reference definition of the dictionary comprehension. Each token maps `split("=")[0]` to `split("=")[1]`, later keys override earlier ones, and a token without `=` raises IndexError. |
| FixedToVariableStep.ParseDeclaration | file_convertion/wig/fixedToVariableStep.py:26 | Reference definition of the declaration's parameters: the tokens after the first space-separated word of the stripped line. |
| FixedToVariableStep.DeclareFixedStep | file_convertion/wig/fixedToVariableStep.py:25-33 | Reference definition of a `fixedStep` line. Parse the parameters (IndexError). Set the position to `int(start)`: KeyError when start is missing, ValueError when it is not a number. Enter the span or plain state. Print the `variableStep` header, which raises KeyError after the state change when `chrom` is missing. |
| FixedToVariableStep.DeclarationHeader | file_convertion/wig/fixedToVariableStep.py:28-33 | Reference definition of the replacement header: `variableStep chrom=<chrom>`, followed by ` span=<span>` when span is given. |
| FixedToVariableStep.WigStep | file_convertion/wig/fixedToVariableStep.py:21-51 | Reference definition of one round of main's loop. A `fixedStep` line is declared. A `variableStep` line is copied stripped and enters that state. Data lines are dropped before any declaration and copied stripped in a variableStep block. In a fixed block, a data line prints `pos value` and then adds `int(step)` (KeyError or ValueError after printing). |
| FixedToVariableStep.WigRun | file_convertion/wig/fixedToVariableStep.py:21-51 | Reference definition of main's loop: the printed lines of WigStep over the input, ending at the first exception with what was printed so far. |
| FixedToVariableStep.ParamsFromTokens | file_convertion/wig/fixedToVariableStep.py:26 | Plain `key=value` tokens parse to their dictionary, later keys overriding earlier ones. |
| FixedToVariableStep.ParseDeclarationText | file_convertion/wig/fixedToVariableStep.py:26 | A written declaration line parses back to its parameters. |
| FixedToVariableStep.ConvertFixedToVariable | file_convertion/wig/fixedToVariableStep.py:12-51 | The loop of main prints exactly what the line-by-line reference run prints, and stops with the same exception. |
| FixedToVariableStep.NoOutputBeforeDeclaration | file_convertion/wig/fixedToVariableStep.py:40-42 | Data lines before the first declaration are dropped. |
| FixedToVariableStep.Positioned | file_convertion/wig/fixedToVariableStep.py:44-49 | A fixed block prints one line per value. |
| FixedToVariableStep.PositionedAt | file_convertion/wig/fixedToVariableStep.py:44-49 | Value k of a fixed block is printed at position `start + k*step`. |
| FixedToVariableStep.FixedStepPositions | file_convertion/wig/fixedToVariableStep.py:44-49 | A run of fixed data lines prints its positioned values and advances the position by `len * step`. |
| FixedToVariableStep.DeclarationResets | file_convertion/wig/fixedToVariableStep.py:25-27 | A `fixedStep` line forgets the previous state, and the new position is `int(start)`. |
| FixedToVariableStep.SpanOnlyChangesHeader | file_convertion/wig/fixedToVariableStep.py:44-49 | With and without span, data lines are converted identically. |
| FixedToVariableStep.DeclarationOutput | file_convertion/wig/fixedToVariableStep.py:25-33 | A well-formed `fixedStep` line prints `variableStep chrom=…`, adding ` span=…` exactly when span is given. It enters the matching state at `start`. |
| FixedToVariableStep.VariableStepPassThrough | file_convertion/wig/fixedToVariableStep.py:50-51 | Data lines of a variableStep block are copied, stripped. |
| FixedToVariableStep.StripAll | file_convertion/wig/fixedToVariableStep.py:51 | Each copied line is the stripped input line. |
| FixedToVariableStep.OneLinePerLine | file_convertion/wig/fixedToVariableStep.py:34-51 | After the first declaration, every input line prints exactly one line unless an exception occurs. |

## Left out

- ChunkSequences.ChunkSequences, ChunkSequences.ChunkFasta, ChunkSequences.ChunkFastq, Chunks.Windows and Chunks.Blocks require a chunk size of at least 1. The tool itself accepts any int. Four behaviours for smaller sizes are not modelled:
  - with 0 in sliding mode it prints n+1 empty chunks labelled 0 to n and raises nothing;
  - with a negative size in sliding mode it prints slices with negative ends, such as `sequence[0:-1]`;
  - in FASTA fixed mode, `itertools.batched` raises ValueError for any size below 1;
  - in FASTQ fixed mode, `range(0, n, 0)` raises ValueError, and a negative size prints nothing.
- File I/O: opening and reading files is left out, and so is gzip detection by the `.gz` suffix. A file is its lines. `f.seek(0)` is modelled as handing the same lines to the chunker.
- Command-line parsing (argparse, the usage text of `sys.argv`), the Python version checks and the `-o` output file of the WIG converter are left out. The WIG converter's printed lines go to one output sequence, whether or not `-o` is given.
- Whitespace is Python's ASCII whitespace. Unicode spaces that `str.strip()` also removes are not modelled.
- `int()` is modelled as an optional sign and ASCII digits. Underscores and surrounding whitespace, which Python also accepts, are not modelled.
- ChunkSequences.EmitFastqBlocks: the label `int(i/chunkSize)` is computed on integers. Float rounding, which only matters for offsets above 2^53, is left out.
- The chunker's sniffer raises StopIteration at line 24 or 25. Both cases are one `Truncated` verdict, because the outcome is the same.
- The WIG converter's initial `None` parameters and position are modelled as an empty map and 0. Every data line reaching them is ignored in the start state, so the difference never shows.
- The text of Python tracebacks is not modelled, only which exception ends the run.
- The iteration order of `statistics.values()` is left open. LongestUnique shows the result does not depend on it.
