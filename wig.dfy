/**
 * The WIG converter (file_convertion/wig/fixedToVariableStep.py): a line-by-line
 * state machine that rewrites `fixedStep` blocks of a wiggle track as
 * `variableStep` blocks, giving every data value its explicit position, and
 * copies `variableStep` blocks through.
 */
module FixedToVariableStep {
  import opened Text
  import opened Outcome

  // ---------------------------------------------------------------------------
  // Declaration lines

  /**
   * `{kv.split("=")[0]: kv.split("=")[1] for kv in tokens}`: tokens in order,
   * a later key overriding an earlier one; a token without `=` raises
   * IndexError.
   */
  function ParamsFrom(tokens: seq<string>, acc: map<string, string>): Result<map<string, string>>
    decreases |tokens|
  {
    if tokens == [] then Ok(acc)
    else
      var kv := Split(tokens[0], '=');
      if |kv| < 2 then Err(IndexError) else ParamsFrom(tokens[1..], acc[kv[0] := kv[1]])
  }

  /** The parameters of a declaration: the space-separated tokens after the keyword. */
  function ParseDeclaration(line: string): Result<map<string, string>>
  {
    ParamsFrom(Split(Strip(line), ' ')[1..], map[])
  }

  /** The parse fails, always with IndexError, exactly when some token has no `=`. */
  lemma {:induction false} ParamsFromFails(tokens: seq<string>, acc: map<string, string>)
    ensures ParamsFrom(tokens, acc).Err? <==> exists j :: 0 <= j < |tokens| && '=' !in tokens[j]
    ensures ParamsFrom(tokens, acc).Err? ==> ParamsFrom(tokens, acc).error == IndexError
    decreases |tokens|
  {
    if tokens != [] {
      SplitHasSecondPiece(tokens[0], '=');
      var kv := Split(tokens[0], '=');
      if |kv| >= 2 {
        ParamsFromFails(tokens[1..], acc[kv[0] := kv[1]]);
        assert (exists j :: 0 <= j < |tokens| && '=' !in tokens[j])
          <==> (exists j :: 0 <= j < |tokens[1..]| && '=' !in tokens[1..][j]) by {
          forall j | 0 <= j < |tokens| && '=' !in tokens[j]
            ensures exists j' :: 0 <= j' < |tokens[1..]| && '=' !in tokens[1..][j']
          {
            assert j != 0;
            assert tokens[1..][j - 1] == tokens[j];
          }
          forall j | 0 <= j < |tokens[1..]| && '=' !in tokens[1..][j]
            ensures exists j' :: 0 <= j' < |tokens| && '=' !in tokens[j']
          {
            assert tokens[j + 1] == tokens[1..][j];
          }
        }
      }
    }
  }

  /** A value is the text between the first and the second `=`: anything after a second `=` is dropped. */
  lemma ValueStopsAtSecondEquals(key: string, v1: string, tail: string, acc: map<string, string>)
    requires '=' !in key && '=' !in v1
    ensures ParamsFrom([key + "=" + v1 + "=" + tail], acc) == Ok(acc[key := v1])
  {
    JoinSplit(tail, '=');
    var parts := [key, v1] + Split(tail, '=');
    assert Join(parts, '=') == key + "=" + v1 + "=" + tail by {
      assert parts[1..][1..] == Split(tail, '=');
    }
    SplitJoin(parts, '=');
    var tokens := [key + "=" + v1 + "=" + tail];
    assert tokens[1..] == [];
  }

  /** One `key=value` token. */
  datatype Param = Param(key: string, value: string)

  function Token(p: Param): string
  {
    p.key + "=" + p.value
  }

  function Tokens(params: seq<Param>): (tokens: seq<string>)
    ensures |tokens| == |params|
    ensures forall j :: 0 <= j < |params| ==> tokens[j] == Token(params[j])
  {
    if params == [] then [] else [Token(params[0])] + Tokens(params[1..])
  }

  /** The dictionary the parameters make, later keys overriding earlier ones. */
  function ParamMap(acc: map<string, string>, params: seq<Param>): map<string, string>
    decreases |params|
  {
    if params == [] then acc else ParamMap(acc[params[0].key := params[0].value], params[1..])
  }

  /** A declaration line as a writer would produce it: keyword, then the tokens, separated by single spaces. */
  function DeclarationText(keyword: string, params: seq<Param>): string
  {
    Join([keyword] + Tokens(params), ' ')
  }

  /** Text usable as keyword, key or value: no whitespace and no `=`. */
  predicate Plain(s: string)
  {
    forall i :: 0 <= i < |s| ==> !IsSpace(s[i]) && s[i] != '='
  }

  lemma {:induction false} ParamsFromTokens(params: seq<Param>, acc: map<string, string>)
    requires forall j :: 0 <= j < |params| ==> Plain(params[j].key) && Plain(params[j].value)
    ensures ParamsFrom(Tokens(params), acc) == Ok(ParamMap(acc, params))
    decreases |params|
  {
    if params != [] {
      var p := params[0];
      var parts := [p.key, p.value];
      assert Join(parts, '=') == Token(p) by {
        assert parts[1..] == [p.value];
      }
      assert '=' !in p.key && '=' !in p.value by {
        assert Plain(p.key) && Plain(p.value);
      }
      SplitJoin(parts, '=');
      ParamsFromTokens(params[1..], acc[p.key := p.value]);
      assert Tokens(params)[1..] == Tokens(params[1..]);
    }
  }

  /** A token of plain key and value holds no space and is trimmed. */
  lemma TokenFacts(p: Param)
    requires Plain(p.key) && Plain(p.value)
    ensures var t := Token(p); ' ' !in t && t != [] && Trimmed(t)
  {
    var t := Token(p);
    forall i | 0 <= i < |t| ensures t[i] != ' ' {
      if i < |p.key| {
        assert t[i] == p.key[i];
      } else if i > |p.key| {
        assert t[i] == p.value[i - |p.key| - 1];
      }
    }
    assert t[|p.key|] == '=';
    if p.key != [] { assert t[0] == p.key[0]; }
    if p.value != [] { assert t[|t| - 1] == p.value[|p.value| - 1]; }
  }

  /** Reading a written declaration line back (with its line terminator) gives its parameters. */
  lemma ParseDeclarationText(keyword: string, params: seq<Param>, terminator: string)
    requires keyword != [] && Plain(keyword) && IsBlank(terminator)
    requires forall j :: 0 <= j < |params| ==> Plain(params[j].key) && Plain(params[j].value)
    ensures ParseDeclaration(DeclarationText(keyword, params) + terminator) == Ok(ParamMap(map[], params))
  {
    var parts := [keyword] + Tokens(params);
    var text := Join(parts, ' ');
    forall j | 0 <= j < |parts| ensures ' ' !in parts[j] && parts[j] != [] && Trimmed(parts[j]) {
      if j == 0 {
        assert !IsSpace(keyword[0]) && !IsSpace(keyword[|keyword| - 1]);
        assert ' ' !in keyword by { assert ' ' == ' ' && IsSpace(' '); }
      } else {
        assert parts[j] == Token(params[j - 1]);
        TokenFacts(params[j - 1]);
      }
    }
    JoinTrimmed(parts, ' ');
    StripTrimmedLine(text, terminator);
    SplitJoin(parts, ' ');
    assert parts[1..] == Tokens(params);
    ParamsFromTokens(params, map[]);
  }

  // ---------------------------------------------------------------------------
  // The state machine

  datatype WigMode = Start | FixedStep | FixedStepSpan | VariableStep

  /**
   * `state`, `current_wig_parameters` and `current_pos`. Before the first
   * `fixedStep` declaration the dictionary and the position are never read;
   * they start as `{}` and 0 here where Python has None.
   */
  datatype WigState = WigState(mode: WigMode, params: map<string, string>, pos: int)

  const Initial := WigState(Start, map[], 0)

  /** What one input line does: the new state, the lines printed, and the exception raised, if any. */
  datatype Step = Step(state: WigState, printed: seq<string>, error: Option<PyError>)

  /** The output so far and how the run ended. */
  datatype Conversion = Conversion(out: seq<string>, error: Option<PyError>)

  predicate IsDeclaration(line: string)
  {
    HasPrefix(line, "fixedStep") || HasPrefix(line, "variableStep")
  }

  /** The `variableStep` line that replaces a `fixedStep` declaration. */
  function DeclarationHeader(params: map<string, string>): string
    requires "chrom" in params
  {
    if "span" in params then "variableStep chrom=" + params["chrom"] + " span=" + params["span"]
    else "variableStep chrom=" + params["chrom"]
  }

  /** A `fixedStep` line: parse it, start at `int(start)`, announce the block. */
  function DeclareFixedStep(st: WigState, line: string): Step
  {
    match ParseDeclaration(line)
    case Err(e) => Step(st, [], Some(e))
    case Ok(params) =>
      if "start" !in params then Step(st, [], Some(KeyError))
      else
        match ParseInt(params["start"])
        case None => Step(st, [], Some(ValueError))
        case Some(start) =>
          var next := WigState(if "span" in params then FixedStepSpan else FixedStep, params, start);
          if "chrom" !in params then Step(next, [], Some(KeyError))
          else Step(next, [DeclarationHeader(params)], None)
  }

  /** One round of the loop of main. */
  function WigStep(st: WigState, line: string): Step
  {
    if HasPrefix(line, "fixedStep") then DeclareFixedStep(st, line)
    else if HasPrefix(line, "variableStep") then Step(st.(mode := VariableStep), [Strip(line)], None)
    else if st.mode == Start then Step(st, [], None)
    else if st.mode == VariableStep then Step(st, [Strip(line)], None)
    else
      // fixedStep and fixedStepSpan data lines are handled alike
      var printed := [IntToString(st.pos) + " " + Strip(line)];
      if "step" !in st.params then Step(st, printed, Some(KeyError))
      else
        match ParseInt(st.params["step"])
        case None => Step(st, printed, Some(ValueError))
        case Some(step) => Step(st.(pos := st.pos + step), printed, None)
  }

  function Prepend(printed: seq<string>, c: Conversion): Conversion
  {
    Conversion(printed + c.out, c.error)
  }

  /** What the lines print from a state on; the first exception ends the run. */
  function WigRun(st: WigState, lines: seq<string>): Conversion
    decreases |lines|
  {
    if lines == [] then Conversion([], None)
    else
      var s := WigStep(st, lines[0]);
      if s.error != None then Conversion(s.printed, s.error)
      else Prepend(s.printed, WigRun(s.state, lines[1..]))
  }

  lemma PrependPrepend(a: seq<string>, b: seq<string>, c: Conversion)
    ensures Prepend(a, Prepend(b, c)) == Prepend(a + b, c)
  {
    assert a + (b + c.out) == (a + b) + c.out;
  }

  /** The run from line i on is line i's step followed by the run from line i + 1 on. */
  lemma WigRunAt(st: WigState, lines: seq<string>, i: nat)
    requires i < |lines|
    ensures var s := WigStep(st, lines[i]);
      WigRun(st, lines[i..])
      == if s.error != None then Conversion(s.printed, s.error) else Prepend(s.printed, WigRun(s.state, lines[i + 1..]))
  {
    assert lines[i..][0] == lines[i] && lines[i..][1..] == lines[i + 1..];
  }

  /** main of fixedToVariableStep.py: rewrite the track line by line. */
  method ConvertFixedToVariable(lines: seq<string>) returns (out: seq<string>, error: Option<PyError>)
    ensures Conversion(out, error) == WigRun(Initial, lines)
  {
    var mode := Start;
    var params: map<string, string> := map[];
    var pos: int := 0;
    out := [];
    var i := 0;
    while i < |lines|
      invariant 0 <= i <= |lines|
      invariant WigRun(Initial, lines) == Prepend(out, WigRun(WigState(mode, params, pos), lines[i..]))
    {
      var line := lines[i];
      ghost var before := WigState(mode, params, pos);
      var printed: seq<string> := [];
      if HasPrefix(line, "fixedStep") {
        var parsed := ParseDeclaration(line);
        if parsed.Err? {
          RunStops(lines, i, out, before);
          return out, Some(parsed.error);
        }
        params := parsed.value;
        if "start" !in params {
          RunStops(lines, i, out, before);
          return out, Some(KeyError);
        }
        var start := ParseInt(params["start"]);
        if start.None? {
          RunStops(lines, i, out, before);
          return out, Some(ValueError);
        }
        pos := start.value;
        if "span" in params {
          mode := FixedStepSpan;
          if "chrom" !in params {
            RunStops(lines, i, out, before);
            return out, Some(KeyError);
          }
          printed := ["variableStep chrom=" + params["chrom"] + " span=" + params["span"]];
        } else {
          mode := FixedStep;
          if "chrom" !in params {
            RunStops(lines, i, out, before);
            return out, Some(KeyError);
          }
          printed := ["variableStep chrom=" + params["chrom"]];
        }
        DeclaredLine(before, line, params);
      } else if HasPrefix(line, "variableStep") {
        mode := VariableStep;
        printed := [Strip(line)];
        VariableDeclaredLine(before, line);
      } else if mode == Start {
        // lines before the first declaration are ignored
        IgnoredLine(before, line);
      } else if mode == FixedStepSpan || mode == FixedStep {
        printed := [IntToString(pos) + " " + Strip(line)];
        if "step" !in params {
          RunStops(lines, i, out, before);
          return out + printed, Some(KeyError);
        }
        var step := ParseInt(params["step"]);
        if step.None? {
          RunStops(lines, i, out, before);
          return out + printed, Some(ValueError);
        }
        FixedDataLine(before, step.value, line);
        pos := pos + step.value;
      } else {
        printed := [Strip(line)];
        CopiedLine(before, line);
      }
      ghost var after := WigState(mode, params, pos);
      RunGoesOn(lines, i, out, before, after, printed);
      out := out + printed;
      i := i + 1;
      assert WigRun(Initial, lines) == Prepend(out, WigRun(after, lines[i..]));
    }
    assert lines[i..] == [];
    assert out + [] == out;
    return out, None;
  }

  /** A variableStep declaration switches to copying lines through. */
  lemma VariableDeclaredLine(st: WigState, line: string)
    requires !HasPrefix(line, "fixedStep") && HasPrefix(line, "variableStep")
    ensures WigStep(st, line) == Step(st.(mode := VariableStep), [Strip(line)], None)
  {
  }

  /** Data lines before the first declaration print nothing. */
  lemma IgnoredLine(st: WigState, line: string)
    requires st.mode == Start && !IsDeclaration(line)
    ensures WigStep(st, line) == Step(st, [], None)
  {
  }

  /** Data lines of a variableStep block are copied, stripped. */
  lemma CopiedLine(st: WigState, line: string)
    requires st.mode == VariableStep && !IsDeclaration(line)
    ensures WigStep(st, line) == Step(st, [Strip(line)], None)
  {
  }

  /** A line whose step raises ends the run with what it printed and its exception. */
  lemma RunStops(lines: seq<string>, i: nat, out: seq<string>, st: WigState)
    requires i < |lines| && WigStep(st, lines[i]).error != None
    requires WigRun(Initial, lines) == Prepend(out, WigRun(st, lines[i..]))
    ensures var s := WigStep(st, lines[i]);
      WigRun(Initial, lines) == Conversion(out + s.printed, s.error)
  {
    WigRunAt(st, lines, i);
  }

  /** A line whose step succeeds moves the run on to the next line. */
  lemma RunGoesOn(lines: seq<string>, i: nat, out: seq<string>, st: WigState, next: WigState, printed: seq<string>)
    requires i < |lines| && WigStep(st, lines[i]) == Step(next, printed, None)
    requires WigRun(Initial, lines) == Prepend(out, WigRun(st, lines[i..]))
    ensures WigRun(Initial, lines) == Prepend(out + printed, WigRun(next, lines[i + 1..]))
  {
    WigRunAt(st, lines, i);
    PrependPrepend(out, printed, WigRun(next, lines[i + 1..]));
  }

  // ---------------------------------------------------------------------------
  // Properties of the conversion

  /** Lines that are not declarations. */
  predicate DataLines(lines: seq<string>)
  {
    forall j :: 0 <= j < |lines| ==> !IsDeclaration(lines[j])
  }

  /** Before the first declaration, data lines print nothing and change nothing. */
  lemma {:induction false} NoOutputBeforeDeclaration(st: WigState, data: seq<string>, rest: seq<string>)
    requires st.mode == Start && DataLines(data)
    ensures WigRun(st, data + rest) == WigRun(st, rest)
    decreases |data|
  {
    if data != [] {
      var all := data + rest;
      HeadOfAppend(data, rest);
      assert !IsDeclaration(data[0]);
      assert WigStep(st, data[0]) == Step(st, [], None);
      NoOutputBeforeDeclaration(st, data[1..], rest);
      assert WigRun(st, all) == Prepend([], WigRun(st, all[1..]));
      assert [] + WigRun(st, rest).out == WigRun(st, rest).out;
    } else {
      assert data + rest == rest;
    }
  }

  lemma MulPred(k: int, t: int)
    ensures (k - 1) * t == k * t - t
  {
  }

  /** The data lines of a fixedStep block with positions: `"{pos + k * step} {line k stripped}"`. */
  function Positioned(pos: int, step: int, data: seq<string>): (out: seq<string>)
    ensures |out| == |data|
    decreases |data|
  {
    if data == [] then [] else [IntToString(pos) + " " + Strip(data[0])] + Positioned(pos + step, step, data[1..])
  }

  /** The position after k data lines, counted line by line. */
  function Advance(pos: int, step: int, k: nat): int
    decreases k
  {
    if k == 0 then pos else Advance(pos + step, step, k - 1)
  }

  lemma {:induction false} AdvanceIsProduct(pos: int, step: int, k: nat)
    ensures Advance(pos, step, k) == pos + k * step
    decreases k
  {
    if k > 0 {
      AdvanceIsProduct(pos + step, step, k - 1);
      MulPred(k, step);
    }
  }

  lemma PositionedAt(pos: int, step: int, data: seq<string>, k: nat)
    requires k < |data|
    ensures Positioned(pos, step, data)[k] == IntToString(pos + k * step) + " " + Strip(data[k])
  {
    PositionedAdvance(pos, step, data, k);
    AdvanceIsProduct(pos, step, k);
  }

  lemma {:induction false} PositionedAdvance(pos: int, step: int, data: seq<string>, k: nat)
    requires k < |data|
    ensures Positioned(pos, step, data)[k] == IntToString(Advance(pos, step, k)) + " " + Strip(data[k])
    decreases k
  {
    if k > 0 {
      PositionedTail(pos, step, data, k);
      PositionedAdvance(pos + step, step, data[1..], k - 1);
    }
  }

  lemma PositionedTail(pos: int, step: int, data: seq<string>, k: nat)
    requires 0 < k < |data|
    ensures Positioned(pos, step, data)[k] == Positioned(pos + step, step, data[1..])[k - 1]
    ensures data[1..][k - 1] == data[k]
  {
  }

  /**
   * After a fixedStep declaration with `step=t`, the k-th data line is printed
   * at `pos + k * t`, and the position ends `|data| * t` further on.
   */
  lemma FixedStepPositions(st: WigState, t: int, data: seq<string>, rest: seq<string>)
    requires st.mode == FixedStep || st.mode == FixedStepSpan
    requires "step" in st.params && ParseInt(st.params["step"]) == Some(t)
    requires DataLines(data)
    ensures WigRun(st, data + rest) == Prepend(Positioned(st.pos, t, data), WigRun(st.(pos := st.pos + |data| * t), rest))
  {
    FixedStepRun(st, t, data, rest);
    AdvanceIsProduct(st.pos, t, |data|);
    var last := st.(pos := Advance(st.pos, t, |data|));
    assert last == st.(pos := st.pos + |data| * t);
    assert WigRun(st, data + rest) == Prepend(Positioned(st.pos, t, data), WigRun(last, rest));
  }

  lemma {:induction false} FixedStepRun(st: WigState, t: int, data: seq<string>, rest: seq<string>)
    requires st.mode == FixedStep || st.mode == FixedStepSpan
    requires "step" in st.params && ParseInt(st.params["step"]) == Some(t)
    requires DataLines(data)
    ensures WigRun(st, data + rest) == Prepend(Positioned(st.pos, t, data), WigRun(st.(pos := Advance(st.pos, t, |data|)), rest))
    decreases |data|
  {
    if data == [] {
      NoDataLines(st, t, rest);
    } else {
      FixedStepRun(st.(pos := st.pos + t), t, data[1..], rest);
      FixedStepRunStep(st, t, data, rest);
    }
  }

  /** The base case of FixedStepRun: no data lines print nothing and leave the position. */
  lemma NoDataLines(st: WigState, t: int, rest: seq<string>)
    ensures WigRun(st, [] + rest) == Prepend(Positioned(st.pos, t, []), WigRun(st.(pos := Advance(st.pos, t, 0)), rest))
  {
    assert [] + rest == rest;
    assert st.(pos := st.pos) == st;
    assert [] + WigRun(st, rest).out == WigRun(st, rest).out;
  }

  /** The inductive step of FixedStepRun: one more data line in front. */
  lemma FixedStepRunStep(st: WigState, t: int, data: seq<string>, rest: seq<string>)
    requires st.mode == FixedStep || st.mode == FixedStepSpan
    requires "step" in st.params && ParseInt(st.params["step"]) == Some(t)
    requires data != [] && DataLines(data)
    requires var next := st.(pos := st.pos + t);
      WigRun(next, data[1..] + rest)
      == Prepend(Positioned(next.pos, t, data[1..]), WigRun(next.(pos := Advance(next.pos, t, |data[1..]|)), rest))
    ensures WigRun(st, data + rest) == Prepend(Positioned(st.pos, t, data), WigRun(st.(pos := Advance(st.pos, t, |data|)), rest))
  {
    var next := st.(pos := st.pos + t);
    var line := IntToString(st.pos) + " " + Strip(data[0]);
    var last := st.(pos := Advance(st.pos, t, |data|));
    assert !IsDeclaration(data[0]);
    FixedRunHead(st, t, data, rest);
    assert next.(pos := Advance(next.pos, t, |data[1..]|)) == last;
    PrependPrepend([line], Positioned(next.pos, t, data[1..]), WigRun(last, rest));
    assert Positioned(st.pos, t, data) == [line] + Positioned(next.pos, t, data[1..]);
  }

  /** The first data line of a fixedStep block prints its position, then the run goes on from the next position. */
  lemma FixedRunHead(st: WigState, t: int, data: seq<string>, rest: seq<string>)
    requires st.mode == FixedStep || st.mode == FixedStepSpan
    requires "step" in st.params && ParseInt(st.params["step"]) == Some(t)
    requires data != [] && !IsDeclaration(data[0])
    ensures WigRun(st, data + rest)
      == Prepend([IntToString(st.pos) + " " + Strip(data[0])], WigRun(st.(pos := st.pos + t), data[1..] + rest))
  {
    HeadOfAppend(data, rest);
    FixedDataLine(st, t, data[0]);
    WigRunAt(st, data + rest, 0);
    assert (data + rest)[0..] == data + rest;
  }

  /** A data line of a fixedStep block prints its position and advances it by the step. */
  lemma FixedDataLine(st: WigState, t: int, line: string)
    requires st.mode == FixedStep || st.mode == FixedStepSpan
    requires "step" in st.params && ParseInt(st.params["step"]) == Some(t)
    requires !IsDeclaration(line)
    ensures WigStep(st, line) == Step(st.(pos := st.pos + t), [IntToString(st.pos) + " " + Strip(line)], None)
  {
  }

  /** A fixedStep declaration starts the position afresh at its own `start`, whatever came before. */
  lemma DeclarationResets(st1: WigState, st2: WigState, line: string, rest: seq<string>)
    requires HasPrefix(line, "fixedStep")
    ensures WigRun(st1, [line] + rest) == WigRun(st2, [line] + rest)
    ensures var s := WigStep(st1, line);
      s.error == None ==> "start" in s.state.params && ParseInt(s.state.params["start"]) == Some(s.state.pos)
  {
    assert ([line] + rest)[0] == line && ([line] + rest)[1..] == rest;
  }

  /** Declared with or without a span, the data lines of a fixedStep block print the same. */
  lemma {:induction false} SpanOnlyChangesHeader(st: WigState, data: seq<string>)
    requires st.mode == FixedStep || st.mode == FixedStepSpan
    requires DataLines(data)
    ensures WigRun(st.(mode := FixedStep), data) == WigRun(st.(mode := FixedStepSpan), data)
    decreases |data|
  {
    if data != [] {
      assert !IsDeclaration(data[0]);
      var a := WigStep(st.(mode := FixedStep), data[0]);
      var b := WigStep(st.(mode := FixedStepSpan), data[0]);
      assert a.printed == b.printed && a.error == b.error;
      if a.error == None {
        assert a.state == a.state.(mode := FixedStep) && b.state == a.state.(mode := FixedStepSpan);
        SpanOnlyChangesHeader(a.state, data[1..]);
      }
    }
  }

  /** The `variableStep` line that a declaration prints, with or without a span. */
  lemma DeclarationOutput(st: WigState, keyword: string, params: seq<Param>, terminator: string)
    requires HasPrefix(keyword, "fixedStep") && Plain(keyword) && IsBlank(terminator)
    requires forall j :: 0 <= j < |params| ==> Plain(params[j].key) && Plain(params[j].value)
    requires var m := ParamMap(map[], params);
      "chrom" in m && "start" in m && ParseInt(m["start"]).Some?
    ensures var m := ParamMap(map[], params);
      var s := WigStep(st, DeclarationText(keyword, params) + terminator);
      && s.error == None
      && s.printed == [if "span" in m then "variableStep chrom=" + m["chrom"] + " span=" + m["span"]
                       else "variableStep chrom=" + m["chrom"]]
      && s.state == WigState(if "span" in m then FixedStepSpan else FixedStep, m, ParseInt(m["start"]).value)
  {
    var line := DeclarationText(keyword, params) + terminator;
    ParseDeclarationText(keyword, params, terminator);
    DeclarationKeepsKeyword(keyword, params, terminator);
    DeclaredLine(st, line, ParamMap(map[], params));
  }

  /** The declaration line begins with its keyword. */
  lemma DeclarationKeepsKeyword(keyword: string, params: seq<Param>, terminator: string)
    requires HasPrefix(keyword, "fixedStep")
    ensures HasPrefix(DeclarationText(keyword, params) + terminator, "fixedStep")
  {
    var line := DeclarationText(keyword, params) + terminator;
    var text := DeclarationText(keyword, params);
    JoinEnds([keyword] + Tokens(params), ' ');
    assert text[..|keyword|] == keyword;
    assert line[..|keyword|] == text[..|keyword|];
    assert line[..9] == keyword[..9];
  }

  /** A fixedStep line whose parameters parse, with `chrom` and a numeric `start`, prints the header and starts the block. */
  lemma DeclaredLine(st: WigState, line: string, m: map<string, string>)
    requires HasPrefix(line, "fixedStep") && ParseDeclaration(line) == Ok(m)
    requires "chrom" in m && "start" in m && ParseInt(m["start"]).Some?
    ensures var s := WigStep(st, line);
      && s.error == None
      && s.printed == [if "span" in m then "variableStep chrom=" + m["chrom"] + " span=" + m["span"]
                       else "variableStep chrom=" + m["chrom"]]
      && s.state == WigState(if "span" in m then FixedStepSpan else FixedStep, m, ParseInt(m["start"]).value)
  {
  }

  /** A variableStep block is copied through, each line stripped. */
  lemma {:induction false} VariableStepPassThrough(st: WigState, data: seq<string>, rest: seq<string>)
    requires st.mode == VariableStep && DataLines(data)
    ensures WigRun(st, data + rest) == Prepend(StripAll(data), WigRun(st, rest))
    decreases |data|
  {
    if data == [] {
      assert data + rest == rest;
      assert [] + WigRun(st, rest).out == WigRun(st, rest).out;
    } else {
      var all := data + rest;
      HeadOfAppend(data, rest);
      assert !IsDeclaration(data[0]);
      assert WigStep(st, data[0]) == Step(st, [Strip(data[0])], None);
      VariableStepPassThrough(st, data[1..], rest);
      PrependPrepend([Strip(data[0])], StripAll(data[1..]), WigRun(st, rest));
    }
  }

  function StripAll(lines: seq<string>): (out: seq<string>)
    ensures |out| == |lines|
    ensures forall j :: 0 <= j < |lines| ==> out[j] == Strip(lines[j])
  {
    if lines == [] then [] else [Strip(lines[0])] + StripAll(lines[1..])
  }

  /** Once a declaration has been read, every line prints exactly one line, until an exception. */
  lemma {:induction false} OneLinePerLine(st: WigState, lines: seq<string>)
    requires st.mode != Start
    ensures WigRun(st, lines).error == None ==> |WigRun(st, lines).out| == |lines|
    decreases |lines|
  {
    if lines != [] {
      var s := WigStep(st, lines[0]);
      if s.error == None {
        assert |s.printed| == 1 && s.state.mode != Start;
        OneLinePerLine(s.state, lines[1..]);
      }
    }
  }
}
