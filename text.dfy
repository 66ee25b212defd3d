/**
 * The string primitives the three tools lean on, with Python's meaning:
 * whitespace, `str.strip()`, the blank-line test `not line.split()`,
 * `str.startswith`, `str.split(sep)` / `sep.join(parts)`, slicing with
 * clamped bounds, and decimal `str(n)` / `int(s)`.
 */
module Text {
  import opened Outcome

  /** The first element and the rest of a concatenation whose left part is not empty. */
  lemma HeadOfAppend<T>(a: seq<T>, b: seq<T>)
    requires a != []
    ensures (a + b)[0] == a[0] && (a + b)[1..] == a[1..] + b
  {
  }

  lemma AppendAssoc<T>(a: seq<T>, b: seq<T>, c: seq<T>)
    ensures (a + b) + c == a + (b + c)
  {
  }

  /** Moving the head of a tail onto the end of its prefix. */
  lemma ShiftHead<T>(prefix: seq<T>, x: T, tail: seq<T>, whole: seq<T>)
    requires whole == [x] + tail
    ensures prefix + whole == (prefix + [x]) + tail
  {
  }

  /** Python's `str.isspace` restricted to the ASCII range. */
  predicate IsSpace(c: char) {
    c == ' ' || c == '\t' || c == '\n' || c == '\r' || c == '\U{B}' || c == '\U{C}'
    || ('\U{1C}' <= c <= '\U{1F}')
  }

  /** `not line.split()`, equivalently `not line.strip()`: only whitespace. */
  predicate IsBlank(s: string) {
    forall i :: 0 <= i < |s| ==> IsSpace(s[i])
  }

  /** Neither starts nor ends with whitespace (what `strip()` leaves behind). */
  predicate Trimmed(s: string) {
    s == [] || (!IsSpace(s[0]) && !IsSpace(s[|s| - 1]))
  }

  /** `s.startswith(c)` for a one-character prefix. */
  predicate StartsWith(s: string, c: char) {
    |s| > 0 && s[0] == c
  }

  /** `s.startswith(p)`. */
  predicate HasPrefix(s: string, p: string) {
    |p| <= |s| && s[..|p|] == p
  }

  /** Lines the format sniffer and the record readers pass over: blank, or a `#` comment. */
  predicate Skippable(line: string) {
    IsBlank(line) || StartsWith(line, '#')
  }

  /** `s.lstrip()`. */
  function TrimLeft(s: string): (r: string)
    ensures |r| <= |s|
  {
    if s != [] && IsSpace(s[0]) then TrimLeft(s[1..]) else s
  }

  /** `s.rstrip()`. */
  function TrimRight(s: string): (r: string)
    ensures |r| <= |s|
  {
    if s != [] && IsSpace(s[|s| - 1]) then TrimRight(s[..|s| - 1]) else s
  }

  /** `s.strip()`. */
  function Strip(s: string): (r: string)
    ensures |r| <= |s|
  {
    TrimRight(TrimLeft(s))
  }

  /** `lstrip()` removes a blank prefix and stops at the first non-space. */
  lemma {:induction false} TrimLeftCut(s: string)
    ensures var r := TrimLeft(s);
      && r == s[|s| - |r|..] && IsBlank(s[..|s| - |r|]) && (r == [] || !IsSpace(r[0]))
  {
    if s != [] && IsSpace(s[0]) {
      TrimLeftCut(s[1..]);
      var r := TrimLeft(s);
      assert s[1..][..|s| - 1 - |r|] == s[1..|s| - |r|];
    }
  }

  /** `rstrip()` removes a blank suffix and stops at the last non-space. */
  lemma {:induction false} TrimRightCut(s: string)
    ensures var r := TrimRight(s);
      && r == s[..|r|] && IsBlank(s[|r|..]) && (r == [] || !IsSpace(r[|r| - 1]))
  {
    if s != [] && IsSpace(s[|s| - 1]) {
      var t := s[..|s| - 1];
      TrimRightCut(t);
      var r := TrimRight(s);
      forall i | |r| <= i < |s| ensures IsSpace(s[i]) {
        if i < |s| - 1 { assert s[i] == t[|r|..][i - |r|]; }
      }
      assert forall i :: 0 <= i < |s| - |r| ==> s[|r|..][i] == s[|r| + i];
    }
  }

  /** `s.strip()` is the middle of `s` between a blank prefix and a blank suffix, and is trimmed. */
  lemma StripCut(s: string)
    ensures Trimmed(Strip(s))
    ensures exists a, b :: 0 <= a <= b <= |s| && Strip(s) == s[a..b] && IsBlank(s[..a]) && IsBlank(s[b..])
  {
    var l := TrimLeft(s);
    var r := TrimRight(l);
    TrimLeftCut(s);
    TrimRightCut(l);
    assert r == s[|s| - |l|..|s| - |l| + |r|];
    assert IsBlank(s[|s| - |l| + |r|..]) by {
      assert s[|s| - |l| + |r|..] == l[|r|..];
    }
    if r != [] {
      assert r[0] == l[0];
    }
  }

  /** `strip()` yields the empty string exactly on blank lines. */
  lemma StripEmptyIffBlank(s: string)
    ensures Strip(s) == [] <==> IsBlank(s)
  {
    StripCut(s);
    var a, b :| 0 <= a <= b <= |s| && Strip(s) == s[a..b] && IsBlank(s[..a]) && IsBlank(s[b..]);
    if Strip(s) == [] {
      forall i | 0 <= i < |s| ensures IsSpace(s[i]) {
        if i < a { assert s[..a][i] == s[i]; } else { assert s[b..][i - b] == s[i]; }
      }
    } else {
      assert !IsSpace(Strip(s)[0]);
      assert s[a] == Strip(s)[0];
    }
  }

  /** A line whose first character is not whitespace keeps that character first after `strip()`. */
  lemma StripKeepsFirst(s: string)
    requires |s| > 0 && !IsSpace(s[0])
    ensures |Strip(s)| > 0 && Strip(s)[0] == s[0]
  {
    StripCut(s);
    var a, b :| 0 <= a <= b <= |s| && Strip(s) == s[a..b] && IsBlank(s[..a]) && IsBlank(s[b..]);
    BlankSlices(s, a, b);
    assert a == 0;
    assert b > 0;
  }

  /** The blank prefix and suffix around a cut, stated index by index. */
  lemma BlankSlices(s: string, a: nat, b: nat)
    requires a <= b <= |s| && IsBlank(s[..a]) && IsBlank(s[b..])
    ensures forall i :: 0 <= i < a ==> IsSpace(s[i])
    ensures forall i :: b <= i < |s| ==> IsSpace(s[i])
  {
    forall i | 0 <= i < a ensures IsSpace(s[i]) { assert s[..a][i] == s[i]; }
    forall i | b <= i < |s| ensures IsSpace(s[i]) { assert s[b..][i - b] == s[i]; }
  }

  /** Stripping a trimmed text followed by whitespace (a line terminator) gives the text back. */
  lemma StripTrimmedLine(s: string, ws: string)
    requires Trimmed(s) && IsBlank(ws)
    ensures Strip(s + ws) == s
  {
    if s == [] {
      assert s + ws == ws;
      TrimLeftBlank(ws);
    } else {
      assert (s + ws)[0] == s[0];
      assert TrimLeft(s + ws) == s + ws;
    }
    TrimRightBlankSuffix(s, ws);
  }

  /** `lstrip()` of a blank string is empty. */
  lemma {:induction false} TrimLeftBlank(ws: string)
    requires IsBlank(ws)
    ensures TrimLeft(ws) == []
    decreases |ws|
  {
    if ws != [] {
      TrimLeftBlank(ws[1..]);
    }
  }

  /** `rstrip()` removes exactly a blank suffix that follows a non-space. */
  lemma {:induction false} TrimRightBlankSuffix(s: string, ws: string)
    requires (s == [] || !IsSpace(s[|s| - 1])) && IsBlank(ws)
    ensures TrimRight(s + ws) == s
    decreases |ws|
  {
    if ws == [] {
      assert s + ws == s;
    } else {
      var t := s + ws;
      var shorter := ws[..|ws| - 1];
      assert t[|t| - 1] == ws[|ws| - 1];
      assert t[..|t| - 1] == s + shorter;
      TrimRightBlankSuffix(s, shorter);
    }
  }

  /** `strip()` is idempotent. */
  lemma StripIdempotent(s: string)
    ensures Strip(Strip(s)) == Strip(s)
  {
    StripCut(s);
    StripTrimmedLine(Strip(s), "");
    assert Strip(s) + "" == Strip(s);
  }

  // ---------------------------------------------------------------------------
  // str.split(sep) and sep.join(parts)

  /** Python's `s.split(sep)` for a one-character separator: never empty, pieces free of `sep`. */
  function Split(s: string, sep: char): (parts: seq<string>)
    ensures |parts| >= 1
    ensures forall i :: 0 <= i < |parts| ==> sep !in parts[i]
  {
    if s == [] then [""]
    else
      var rest := Split(s[1..], sep);
      if s[0] == sep then [""] + rest
      else [[s[0]] + rest[0]] + rest[1..]
  }

  /** Python's `sep.join(parts)`. */
  function Join(parts: seq<string>, sep: char): string
  {
    if |parts| == 0 then ""
    else if |parts| == 1 then parts[0]
    else parts[0] + [sep] + Join(parts[1..], sep)
  }

  lemma {:induction false} SplitCons(c: char, s: string, sep: char)
    requires c != sep
    ensures Split([c] + s, sep) == [[c] + Split(s, sep)[0]] + Split(s, sep)[1..]
  {
    assert ([c] + s)[1..] == s;
  }

  /** Splitting and re-joining gives back the text. */
  lemma {:induction false} JoinSplit(s: string, sep: char)
    ensures Join(Split(s, sep), sep) == s
    decreases |s|
  {
    if s != [] {
      var rest := Split(s[1..], sep);
      JoinSplit(s[1..], sep);
      if s[0] == sep {
        assert Split(s, sep) == [""] + rest;
        assert ([""] + rest)[1..] == rest;
      } else {
        var parts := Split(s, sep);
        assert parts[1..] == rest[1..];
        if |rest| == 1 {
          assert Join(parts, sep) == [s[0]] + rest[0];
        } else {
          assert Join(rest, sep) == rest[0] + [sep] + Join(rest[1..], sep);
        }
      }
    }
  }

  /** Joining pieces that do not contain the separator and splitting again gives back the pieces. */
  lemma {:induction false} SplitJoin(parts: seq<string>, sep: char)
    requires |parts| >= 1
    requires forall i :: 0 <= i < |parts| ==> sep !in parts[i]
    ensures Split(Join(parts, sep), sep) == parts
    decreases |parts|, |parts[0]|
  {
    if parts[0] == [] {
      if |parts| > 1 {
        JoinEmptyHead(parts, sep);
        SplitJoin(parts[1..], sep);
        assert [""] + parts[1..] == parts;
      }
    } else {
      var c := parts[0][0];
      var shorter := [parts[0][1..]] + parts[1..];
      JoinFirstChar(parts, sep);
      SplitJoin(shorter, sep);
      SplitCons(c, Join(shorter, sep), sep);
      assert [c] + shorter[0] == parts[0];
      assert shorter[1..] == parts[1..];
      assert [parts[0]] + parts[1..] == parts;
    }
  }

  /** An empty first piece: the joined text starts with the separator. */
  lemma JoinEmptyHead(parts: seq<string>, sep: char)
    requires |parts| >= 2 && parts[0] == []
    ensures Join(parts, sep)[1..] == Join(parts[1..], sep)
    ensures Join(parts, sep) != [] && Join(parts, sep)[0] == sep
  {
    var tail := Join(parts[1..], sep);
    assert Join(parts, sep) == [sep] + tail;
  }

  /** A non-empty first piece: its first character comes first, the rest joins as before. */
  lemma JoinFirstChar(parts: seq<string>, sep: char)
    requires |parts| >= 1 && parts[0] != []
    requires forall i :: 0 <= i < |parts| ==> sep !in parts[i]
    ensures var shorter := [parts[0][1..]] + parts[1..];
      && parts[0][0] != sep
      && |shorter| == |parts| && |shorter[0]| < |parts[0]|
      && (forall i :: 0 <= i < |shorter| ==> sep !in shorter[i])
      && Join(parts, sep) == [parts[0][0]] + Join(shorter, sep)
  {
    var c := parts[0][0];
    var shorter := [parts[0][1..]] + parts[1..];
    assert c != sep by { assert parts[0][0] in parts[0]; }
    forall i | 0 <= i < |shorter| ensures sep !in shorter[i] {
      if i == 0 {
        assert parts[0] == [c] + parts[0][1..];
      } else {
        assert shorter[i] == parts[i];
      }
    }
    if |parts| > 1 {
      assert shorter[1..] == parts[1..];
      AppendAssoc([c], parts[0][1..], [sep] + Join(parts[1..], sep));
    }
    assert [c] + parts[0][1..] == parts[0];
  }

  /** `s.split(sep)` has a second piece exactly when `sep` occurs in `s`. */
  lemma {:induction false} SplitHasSecondPiece(s: string, sep: char)
    ensures |Split(s, sep)| >= 2 <==> sep in s
    decreases |s|
  {
    if s != [] {
      SplitHasSecondPiece(s[1..], sep);
      assert sep in s <==> s[0] == sep || sep in s[1..] by {
        assert s == [s[0]] + s[1..];
      }
    }
  }

  /** A join starts with its first part and ends with its last. */
  lemma {:induction false} JoinEnds(parts: seq<string>, sep: char)
    requires |parts| >= 1
    ensures var j, last := Join(parts, sep), parts[|parts| - 1];
      && HasPrefix(j, parts[0])
      && |last| <= |j| && j[|j| - |last|..] == last
    decreases |parts|
  {
    var j := Join(parts, sep);
    if |parts| > 1 {
      JoinEnds(parts[1..], sep);
      var rest := Join(parts[1..], sep);
      assert j == parts[0] + [sep] + rest;
      assert j[..|parts[0]|] == parts[0];
      assert j[|j| - |rest|..] == rest;
    }
  }

  /** Joining parts with a non-space separator is trimmed when the outer parts are non-empty and trimmed. */
  lemma JoinTrimmed(parts: seq<string>, sep: char)
    requires |parts| >= 1 && parts[0] != [] && parts[|parts| - 1] != []
    requires Trimmed(parts[0]) && Trimmed(parts[|parts| - 1])
    ensures Trimmed(Join(parts, sep))
  {
    JoinEnds(parts, sep);
    var j := Join(parts, sep);
    var last := parts[|parts| - 1];
    assert j[0] == j[..|parts[0]|][0];
    assert j[|j| - 1] == j[|j| - |last|..][|last| - 1];
  }

  // ---------------------------------------------------------------------------
  // Python slicing s[lo:hi] with non-negative bounds

  function Min(a: int, b: int): int { if a <= b then a else b }

  /** `s[lo:hi]`: bounds past the end are clamped, an empty range gives "". */
  function Slice(s: string, lo: nat, hi: nat): (r: string)
    ensures |r| == if Min(hi, |s|) >= Min(lo, |s|) then Min(hi, |s|) - Min(lo, |s|) else 0
    ensures hi <= |s| && lo <= hi ==> r == s[lo..hi]
    ensures forall i :: 0 <= i < |r| ==> r[i] == s[lo + i]
  {
    var a := Min(lo, |s|);
    var b := Min(hi, |s|);
    if a <= b then s[a..b] else ""
  }

  // ---------------------------------------------------------------------------
  // Decimal rendering `str(n)` and parsing `int(s)`

  predicate IsDigit(c: char) { '0' <= c <= '9' }

  function DigitValue(c: char): (d: nat)
    requires IsDigit(c)
    ensures d < 10
  {
    c as int - '0' as int
  }

  function DigitChar(d: nat): (c: char)
    requires d < 10
    ensures IsDigit(c) && DigitValue(c) == d
  {
    ('0' as int + d) as char
  }

  /** `str(n)` for a natural number: a non-empty run of decimal digits. */
  function NatToString(n: nat): (r: string)
    ensures |r| >= 1
  {
    if n < 10 then [DigitChar(n)] else NatToString(n / 10) + [DigitChar(n % 10)]
  }

  /** Every character `str(n)` produces is a decimal digit. */
  lemma {:induction false} NatToStringDigits(n: nat)
    ensures forall i :: 0 <= i < |NatToString(n)| ==> IsDigit(NatToString(n)[i])
  {
    if n >= 10 {
      NatToStringDigits(n / 10);
    }
  }

  /** `str(i)` for any integer: a minus sign before the digits of a negative number. */
  function IntToString(i: int): string
  {
    if i < 0 then "-" + NatToString(-i) else NatToString(i)
  }

  function DigitsValue(s: string): nat
    requires forall i :: 0 <= i < |s| ==> IsDigit(s[i])
  {
    if s == [] then 0 else DigitsValue(s[..|s| - 1]) * 10 + DigitValue(s[|s| - 1])
  }

  /** `int(s)` for an unsigned decimal numeral; None where Python raises ValueError. */
  function ParseNat(s: string): Option<nat>
  {
    if s != [] && forall i :: 0 <= i < |s| ==> IsDigit(s[i]) then Some(DigitsValue(s)) else None
  }

  /** `int(s)` for an optionally signed decimal numeral; None where Python raises ValueError. */
  function ParseInt(s: string): Option<int>
  {
    if s != [] && (s[0] == '-' || s[0] == '+') then
      match ParseNat(s[1..])
      case Some(n) => Some(if s[0] == '-' then 0 - n else n)
      case None => None
    else
      match ParseNat(s)
      case Some(n) => Some(n)
      case None => None
  }

  lemma {:induction false} ParseNatToString(n: nat)
    ensures ParseNat(NatToString(n)) == Some(n)
  {
    if n >= 10 {
      ParseNatToString(n / 10);
      var r := NatToString(n);
      assert r[..|r| - 1] == NatToString(n / 10);
      assert DigitsValue(r) == DigitsValue(NatToString(n / 10)) * 10 + n % 10;
    }
  }

  /** `int(str(i)) == i`. */
  lemma IntToStringRoundTrip(i: int)
    ensures ParseInt(IntToString(i)) == Some(i)
  {
    if i < 0 {
      ParseNatToString(-i);
      assert IntToString(i)[1..] == NatToString(-i);
    } else {
      ParseNatToString(i);
    }
  }

  /** Decimal numerals never contain a given non-digit separator (tab, space, '='). */
  lemma NatToStringAvoids(n: nat, c: char)
    requires !IsDigit(c)
    ensures c !in NatToString(n)
  {
  }
}
