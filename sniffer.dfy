/**
 * Format detection, written out identically at the top of the chunker and of
 * the length-statistics tool: skip blank and `#` lines, then look at the first
 * content line. `>` means FASTA; `@` means FASTQ if the line two below it
 * starts with `+`; anything else is reported as an unknown format. A file with
 * no content line falls out of the loop without any verdict, and an `@` line
 * too close to the end makes `next()` raise.
 */
module Sniffer {
  import opened Text

  datatype Format =
    | Fasta
    | Fastq
    | Unknown    // "Unknown file format: {file}" is printed to stderr
    | NoContent  // the loop ends without reaching a content line
    | Truncated  // `next(f)` raised StopIteration while checking for FASTQ

  /** The message both tools print to stderr for a file of unknown format. */
  function UnknownFormatMessage(file: string): string
  {
    "Unknown file format: " + file
  }

  /** Index of the first content line at or after `from`, or `|lines|` if there is none. */
  function FirstContent(lines: seq<string>, from: nat): (i: nat)
    requires from <= |lines|
    ensures from <= i <= |lines|
    ensures forall j :: from <= j < i ==> Skippable(lines[j])
    ensures i < |lines| ==> !Skippable(lines[i])
    decreases |lines| - from
  {
    if from == |lines| || !Skippable(lines[from]) then from else FirstContent(lines, from + 1)
  }

  /** The verdict of the sniffing loop. */
  function Classify(lines: seq<string>): Format
  {
    var i := FirstContent(lines, 0);
    if i == |lines| then NoContent
    else if StartsWith(lines[i], '>') then Fasta
    else if StartsWith(lines[i], '@') then
      if i + 2 >= |lines| then Truncated
      else if StartsWith(lines[i + 2], '+') then Fastq
      else Unknown
    else Unknown
  }

  /** The sniffing loop of sequences/chunk_sequences.py and fastq/sequence_length_statistics.py. */
  method SniffFormat(lines: seq<string>) returns (format: Format)
    ensures format == Classify(lines)
  {
    var i := 0;
    while i < |lines|
      invariant 0 <= i <= |lines|
      invariant forall j :: 0 <= j < i ==> Skippable(lines[j])
    {
      var line := lines[i];
      if IsBlank(line) || StartsWith(line, '#') {
        i := i + 1;
        continue;
      }
      if StartsWith(line, '>') {
        return Fasta;
      } else if StartsWith(line, '@') {
        // the two `next(f)` calls: the second one raises whenever the first does
        if i + 2 >= |lines| {
          return Truncated;
        }
        var lineWithPlus := lines[i + 2];
        if StartsWith(lineWithPlus, '+') {
          return Fastq;
        }
        return Unknown;
      } else {
        return Unknown;
      }
    }
    return NoContent;
  }

  /** Leading blank and comment lines never change the verdict. */
  lemma {:induction false} ClassifySkipsPreamble(preamble: seq<string>, lines: seq<string>)
    requires forall j :: 0 <= j < |preamble| ==> Skippable(preamble[j])
    ensures Classify(preamble + lines) == Classify(lines)
  {
    var all := preamble + lines;
    var i := FirstContent(lines, 0);
    var k := FirstContent(all, 0);
    assert forall j :: 0 <= j < |preamble| ==> all[j] == preamble[j];
    assert forall j :: 0 <= j < |lines| ==> all[|preamble| + j] == lines[j];
    assert forall j :: 0 <= j < |preamble| + i ==> Skippable(all[j]);
    assert k == |preamble| + i;
  }

  /** An `@` line whose second follower does not start with `+` makes an unknown format. */
  lemma MissingPlusIsUnknown(lines: seq<string>)
    requires var i := FirstContent(lines, 0);
      i + 2 < |lines| && StartsWith(lines[i], '@') && !StartsWith(lines[i + 2], '+')
    ensures Classify(lines) == Unknown
  {
  }

  /** The same, on a concrete three-line file. */
  lemma MissingPlusExample()
    ensures Classify(["@read1\n", "ACGT\n", "-\n"]) == Unknown
  {
    assert !Skippable("@read1\n") by { assert !IsSpace("@read1\n"[0]); }
  }
}
