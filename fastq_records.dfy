/**
 * FASTQ framing as both tools read it: blank and `#` lines are skipped only
 * while looking for a header; the header's three followers are then taken
 * blindly as sequence, `+` line and quality, whatever they hold. The header
 * and the sequence are stripped, the quality line is kept as read (with its
 * line terminator). Fewer than three followers make `next()` raise.
 */
module FastqRecords {
  import opened Text

  datatype FastqRecord = FastqRecord(header: string, sequence: string, quality: string)

  /** The records read before the input ended, and whether it ended inside a record. */
  datatype FastqScan = FastqScan(records: seq<FastqRecord>, truncated: bool)

  function ParseFastq(lines: seq<string>): FastqScan
    decreases |lines|
  {
    if lines == [] then FastqScan([], false)
    else if Skippable(lines[0]) then ParseFastq(lines[1..])
    else if |lines| < 4 then FastqScan([], true)
    else
      var rest := ParseFastq(lines[4..]);
      FastqScan([FastqRecord(Strip(lines[0]), Strip(lines[1]), lines[3])] + rest.records, rest.truncated)
  }

  /** The four lines a record is written as. */
  function RecordLines(r: FastqRecord): seq<string>
  {
    [r.header + "\n", r.sequence + "\n", "+\n", r.quality]
  }

  function FormatFastq(records: seq<FastqRecord>): (lines: seq<string>)
    ensures |lines| == 4 * |records|
  {
    if records == [] then [] else RecordLines(records[0]) + FormatFastq(records[1..])
  }

  /**
   * A record that survives being written and read back: a header that is a
   * content line and is already stripped, and a stripped sequence. The
   * sequence may be empty or start with `#`, and the quality is arbitrary:
   * those lines are consumed blindly.
   */
  predicate Writable(r: FastqRecord)
  {
    && r.header != [] && Trimmed(r.header) && r.header[0] != '#'
    && Trimmed(r.sequence)
  }

  /** Reading back written records gives the same records, with no truncation. */
  lemma {:induction false} ParseFormatFastq(records: seq<FastqRecord>)
    requires forall i :: 0 <= i < |records| ==> Writable(records[i])
    ensures ParseFastq(FormatFastq(records)) == FastqScan(records, false)
  {
    if records != [] {
      var r := records[0];
      var lines := FormatFastq(records);
      assert lines[4..] == FormatFastq(records[1..]);
      assert lines[0] == r.header + "\n" && lines[1] == r.sequence + "\n" && lines[3] == r.quality;
      StripTrimmedLine(r.header, "\n");
      StripTrimmedLine(r.sequence, "\n");
      assert !IsBlank(lines[0]) by { assert !IsSpace(lines[0][0]); }
      ParseFormatFastq(records[1..]);
      assert [r] + records[1..] == records;
    }
  }

  /** Blank and comment lines in front of a header are passed over. */
  lemma {:induction false} ParseFastqSkipsPreamble(preamble: seq<string>, lines: seq<string>)
    requires forall j :: 0 <= j < |preamble| ==> Skippable(preamble[j])
    ensures ParseFastq(preamble + lines) == ParseFastq(lines)
  {
    if preamble != [] {
      var all := preamble + lines;
      assert all[0] == preamble[0];
      assert Skippable(all[0]);
      assert all[1..] == preamble[1..] + lines;
      assert ParseFastq(all) == ParseFastq(all[1..]);
      ParseFastqSkipsPreamble(preamble[1..], lines);
    } else {
      assert preamble + lines == lines;
    }
  }

  /** One step of the FASTQ reader, from line i on: skip a line, run out of lines, or take a record. */
  lemma ParseFastqAt(lines: seq<string>, i: nat)
    requires i < |lines|
    ensures Skippable(lines[i]) ==> ParseFastq(lines[i..]) == ParseFastq(lines[i + 1..])
    ensures !Skippable(lines[i]) && i + 3 >= |lines| ==> ParseFastq(lines[i..]) == FastqScan([], true)
    ensures !Skippable(lines[i]) && i + 3 < |lines| ==>
      var rest := ParseFastq(lines[i + 4..]);
      ParseFastq(lines[i..]) == FastqScan([FastqRecord(Strip(lines[i]), Strip(lines[i + 1]), lines[i + 3])] + rest.records, rest.truncated)
  {
    var tail := lines[i..];
    assert tail[0] == lines[i] && tail[1..] == lines[i + 1..];
    if i + 3 < |lines| {
      assert tail[1] == lines[i + 1] && tail[3] == lines[i + 3] && tail[4..] == lines[i + 4..];
    }
  }
}
