/**
 * `get_procedure`: the lines of one procedure of the disassembly, with a
 * little context, and their display with the label line highlighted.
 *
 * The file is a sequence of lines as `readlines` gives them (each with its
 * newline, except perhaps the last).
 */
module ProcedureWindow {
  import opened Results
  import opened Text
  import opened Numerals
  import opened Arithmetic

  // ---------------------------------------------------------------------------
  // The three line patterns
  // ---------------------------------------------------------------------------

  /** `^name:\s*`: the line opens with the procedure's name and a colon (`\s*` may match nothing). */
  predicate IsStart(line: string, name: string)
  {
    StartsWith(line, name + ":")
  }

  /** The comment the disassembler writes after each function. */
  const EndComment := "; End of function"

  /**
   * `\s+name` matched at index `i`: whitespace at `i`, and `name` right
   * after this or a longer run of whitespace (the regex engine backtracks
   * through the run).
   */
  predicate SpacedNameAt(line: string, name: string, i: nat)
    decreases |line| - i
  {
    i < |line| && IsSpace(line[i]) && (OccursAt(line, name, i + 1) || SpacedNameAt(line, name, i + 1))
  }

  /** `^; End of function\s+name`. */
  predicate IsEnd(line: string, name: string)
  {
    StartsWith(line, EndComment) && SpacedNameAt(line, name, |EndComment|)
  }

  /** `SpacedNameAt` is `\s+` followed by the name: a non-empty run of whitespace, then `name`. */
  lemma {:induction false} SpacedNameMeans(line: string, name: string, i: nat)
    ensures SpacedNameAt(line, name, i) <==>
            exists k :: i < k <= |line| && AllSpace(line[i..k]) && OccursAt(line, name, k)
    decreases |line| - i
  {
    if SpacedNameAt(line, name, i) {
      if OccursAt(line, name, i + 1) {
        assert AllSpace(line[i..i + 1]);
      } else {
        SpacedNameMeans(line, name, i + 1);
        var k :| i + 1 < k <= |line| && AllSpace(line[i + 1..k]) && OccursAt(line, name, k);
        SpaceRun(line, i + 1, k);
        SpaceRun(line, i, k);
      }
    } else {
      forall k | i < k <= |line| && AllSpace(line[i..k])
        ensures !OccursAt(line, name, k)
      {
        SpaceRun(line, i, k);
        if k > i + 1 {
          SpacedNameMeans(line, name, i + 1);
          SpaceRun(line, i + 1, k);
        }
      }
    }
  }

  /** A slice is all whitespace exactly when every character in its range is. */
  lemma {:induction false} SpaceRun(s: string, a: nat, b: nat)
    requires a <= b <= |s|
    ensures AllSpace(s[a..b]) <==> forall j :: a <= j < b ==> IsSpace(s[j])
  {
    assert forall j :: a <= j < b ==> s[a..b][j - a] == s[j];
  }

  /**
   * `^(sub_|loc_|[a-zA-Z_][a-zA-Z0-9_]*):($|\s)`: an identifier, a colon, then
   * the end of the line or whitespace. The `sub_` and `loc_` alternatives are
   * identifiers too, so they add nothing.
   */
  predicate IsLabelLine(line: string)
  {
    && line != []
    && (IsLetter(line[0]) || line[0] == '_')
    && var n := WordRun(line, 0);
       n < |line| && line[n] == ':' && (n + 1 == |line| || IsSpace(line[n + 1]))
  }

  /** A label that starts another procedure: any label but a local `loc_` one. */
  predicate IsNextProcedure(line: string)
  {
    IsLabelLine(line) && (StartsWith(line, "sub_") || !StartsWith(line, "loc_"))
  }

  // ---------------------------------------------------------------------------
  // Finding the procedure
  // ---------------------------------------------------------------------------

  /** How far the end comment is looked for: the label line and the 499 after it. */
  const EndSearch := 500

  /** How far the next procedure's label is looked for when there is no end comment. */
  const LabelSearch := 200

  /** How long a procedure with neither is taken to be. */
  const DefaultLength := 100

  /** Context shown before the label line. */
  const ContextBefore := 5

  /** Context shown after the end line. */
  const ContextAfter := 2

  /** The first index in `lo..hi` whose line satisfies `p`. */
  function FirstWhere(lines: seq<string>, lo: nat, hi: nat, p: string -> bool): (r: Option<nat>)
    requires hi <= |lines|
    ensures r.Some? ==> lo <= r.value < hi && p(lines[r.value])
    ensures r.Some? ==> forall j :: lo <= j < r.value ==> !p(lines[j])
    ensures r.None? <==> forall j :: lo <= j < hi ==> !p(lines[j])
    decreases hi - lo
  {
    if lo >= hi then None
    else if p(lines[lo]) then Some(lo)
    else FirstWhere(lines, lo + 1, hi, p)
  }

  /** The line of the procedure's label: the first line that opens with `name:`. */
  function StartLine(lines: seq<string>, name: string): (r: Option<nat>)
    ensures r.Some? ==> r.value < |lines| && IsStart(lines[r.value], name)
    ensures r.Some? ==> forall j :: 0 <= j < r.value ==> !IsStart(lines[j], name)
    ensures r.None? <==> forall j :: 0 <= j < |lines| ==> !IsStart(lines[j], name)
  {
    FirstWhere(lines, 0, |lines|, l => IsStart(l, name))
  }

  /**
   * The line the procedure ends on: its end comment, if one follows within
   * the search window; else `FallbackEnd`.
   */
  function EndLine(lines: seq<string>, name: string, start: nat): (e: nat)
    requires start < |lines|
    ensures start <= e < |lines|
    ensures (exists j :: start < j < Min(start + EndSearch, |lines|) && IsEnd(lines[j], name)) ==>
              && start < e && IsEnd(lines[e], name)
              && forall j :: start < j < e ==> !IsEnd(lines[j], name)
    ensures (forall j :: start < j < Min(start + EndSearch, |lines|) ==> !IsEnd(lines[j], name)) ==>
              e == FallbackEnd(lines, start)
  {
    match FirstWhere(lines, start + 1, Min(start + EndSearch, |lines|), l => IsEnd(l, name))
    case Some(i) => i
    case None => FallbackEnd(lines, start)
  }

  /**
   * The end line of a procedure without its end comment: the line before the
   * next procedure's label within the shorter window, or else a fixed length
   * cut at the last line.
   */
  function FallbackEnd(lines: seq<string>, start: nat): (e: nat)
    requires start < |lines|
    ensures start <= e < |lines|
    ensures if exists j :: start < j < Min(start + LabelSearch, |lines|) && IsNextProcedure(lines[j]) then
              && e + 1 < Min(start + LabelSearch, |lines|) && IsNextProcedure(lines[e + 1])
              && forall j :: start < j <= e ==> !IsNextProcedure(lines[j])
            else e == Min(start + DefaultLength, |lines| - 1)
  {
    match FirstWhere(lines, start + 1, Min(start + LabelSearch, |lines|), IsNextProcedure)
    case Some(i) => i - 1
    case None => Min(start + DefaultLength, |lines| - 1)
  }

  /**
   * What `find_procedure` returns when it finds the label: the lines shown,
   * the index among them of the label line, and their number.
   */
  datatype Extract = Extract(lines: seq<string>, procLine: nat, endOffset: nat)

  /**
   * `find_procedure`: `None` when no line opens with `name:`; otherwise the
   * procedure from its label line to its end line, with up to five lines
   * before and up to one line after.
   */
  function FindProcedure(lines: seq<string>, name: string): (r: Option<Extract>)
    ensures r.None? <==> StartLine(lines, name).None?
    ensures r.Some? ==>
              var s := StartLine(lines, name).value;
              var w := r.value;
              var from := s - w.procLine;
              && w.procLine == Min(s, ContextBefore)
              && w.procLine < |w.lines| && w.endOffset == |w.lines|
              && from + |w.lines| <= |lines|
              && w.lines == lines[from..from + |w.lines|]
              && EndLine(lines, name, s) < from + |w.lines| <= EndLine(lines, name, s) + ContextAfter
              && from + |w.lines| == Min(|lines|, EndLine(lines, name, s) + ContextAfter)
  {
    match StartLine(lines, name)
    case None => None
    case Some(s) =>
      var e := EndLine(lines, name, s);
      var from := Max(0, s - ContextBefore);
      var to := Min(|lines|, e + ContextAfter);
      Some(Extract(lines[from..to], s - from, to - from))
  }

  /** The label line is in the window, at `procLine`. */
  lemma {:induction false} ExtractShowsLabel(lines: seq<string>, name: string)
    requires FindProcedure(lines, name).Some?
    ensures var w := FindProcedure(lines, name).value;
            IsStart(w.lines[w.procLine], name) && w.procLine <= ContextBefore
  {
    var s := StartLine(lines, name).value;
    var w := FindProcedure(lines, name).value;
    assert w.lines[w.procLine] == lines[s];
  }

  // ---------------------------------------------------------------------------
  // `format_output`
  // ---------------------------------------------------------------------------

  /** `s` right-aligned in a field of `width`, as `f"{n:4d}"` lays out a number. */
  function PadLeft(s: string, width: nat): (r: string)
    ensures |r| == Max(width, |s|)
    ensures r[|r| - |s|..] == s
    ensures AllSpace(r[..|r| - |s|])
  {
    if |s| >= width then s
    else
      var pad := seq(width - |s|, _ => ' ');
      assert (pad + s)[..width - |s|] == pad;
      pad + s
  }

  /** The number column: the 1-based line number in four columns and a space, or nothing. */
  function Marker(i: nat, numbered: bool): string
  {
    if numbered then PadLeft(Decimal(i + 1), 4) + " " else ""
  }

  /** Four characters after the number: an arrow on the label line, spaces elsewhere. */
  function Highlight(i: nat, procLine: nat): string
  {
    if i == procLine then ">>> " else "    "
  }

  /** One line of the display: the number column, the highlight and the line without trailing whitespace. */
  function FormatLine(i: nat, line: string, procLine: nat, numbered: bool): string
  {
    Marker(i, numbered) + Highlight(i, procLine) + RStrip(line)
  }

  /** The display lines, one per line of the window. */
  function Formatted(lines: seq<string>, procLine: nat, numbered: bool): (out: seq<string>)
    ensures |out| == |lines|
    ensures forall i :: 0 <= i < |lines| ==> out[i] == FormatLine(i, lines[i], procLine, numbered)
  {
    seq(|lines|, i requires 0 <= i < |lines| => FormatLine(i, lines[i], procLine, numbered))
  }

  /**
   * `format_output`: the display lines joined with newlines. The end offset
   * is accepted and not used, as in the script.
   */
  function FormatOutput(lines: seq<string>, procLine: nat, endOffset: nat, numbered: bool): string
  {
    Join(Formatted(lines, procLine, numbered), "\n")
  }

  /** A line as `readlines` gives it: a newline, if any, only at the end. */
  predicate IsFileLine(line: string)
  {
    line == [] || '\n' !in line[..|line| - 1]
  }

  /** Stripping trailing whitespace from a file line removes its newline. */
  lemma {:induction false} RStripFileLine(line: string)
    requires IsFileLine(line)
    ensures '\n' !in RStrip(line)
  {
    if line != [] {
      var n := |line|;
      var r := RStrip(line);
      forall k | 0 <= k < |r|
        ensures r[k] != '\n'
      {
        assert r[k] == line[k];
        if k < n - 1 {
          assert line[..n - 1][k] == line[k];
        } else {
          assert TrailingSpace(line) == 0;
        }
      }
    }
  }

  /** The number column of a numbered line reads back, with `int()`, as the 1-based line number. */
  lemma {:induction false} MarkerNumber(i: nat)
    ensures |Marker(i, true)| == Max(4, |Decimal(i + 1)|) + 1
    ensures PyInt(Marker(i, true), 10) == Some(i + 1)
  {
    var d := Decimal(i + 1);
    MarkerStrips(i);
    StripOfDigits(d);
    PyIntOfStrip(Marker(i, true), d, 10);
    PyIntRoundTrip(i + 1, 10);
  }

  /** The number column, stripped, is the decimal line number. */
  lemma {:induction false} MarkerStrips(i: nat)
    ensures Strip(Marker(i, true)) == Decimal(i + 1)
  {
    var d := Decimal(i + 1);
    var p := PadLeft(d, 4);
    var pad := p[..|p| - |d|];
    assert p == pad + d;
    StripPadded(pad, d);
  }

  /** A digit string has no surrounding whitespace. */
  lemma {:induction false} StripOfDigits(d: string)
    requires d != [] && AllDigitsIn(d, 10)
    ensures Strip(d) == d
  {
    assert IsDigitIn(d[0], 10) && IsDigitIn(d[|d| - 1], 10);
    StripOfStripped(d);
  }

  /** Whitespace, a digit string, and a space strip to the digit string. */
  lemma {:induction false} StripPadded(pad: string, d: string)
    requires AllSpace(pad) && d != [] && AllDigitsIn(d, 10)
    ensures Strip(pad + d + " ") == d
  {
    var s := pad + d + " ";
    LeadingSpaceOf(pad, d + " ");
    assert s == pad + (d + " ");
    assert !IsSpace(s[|s| - 2]) by {
      assert s[|s| - 2] == d[|d| - 1];
      assert IsDigitIn(d[|d| - 1], 10);
    }
    assert TrailingSpace(s) == 1 by {
      assert s[..|s| - 1][|s| - 2] == s[|s| - 2];
    }
    assert IsDigitIn(d[0], 10);
    assert s[|pad|] == d[0];
    assert s[|pad|..|s| - 1] == d;
  }

  /**
   * One display line per window line: split at its newlines, the output of
   * `format_output` gives back, line by line, the number column, the
   * highlight (the arrow only on the label line) and the line's text.
   */
  lemma {:induction false} FormatOutputLines(lines: seq<string>, procLine: nat, endOffset: nat, numbered: bool)
    requires lines != []
    requires forall i :: 0 <= i < |lines| ==> IsFileLine(lines[i])
    ensures var out := Split(FormatOutput(lines, procLine, endOffset, numbered), '\n');
            && |out| == |lines|
            && forall i :: 0 <= i < |lines| ==> LineParts(out[i], i, lines[i], procLine, numbered)
  {
    var f := Formatted(lines, procLine, numbered);
    forall i | 0 <= i < |lines|
      ensures '\n' !in f[i] && LineParts(f[i], i, lines[i], procLine, numbered)
    {
      FormatLineParts(i, lines[i], procLine, numbered);
    }
    SplitJoin(f, '\n');
  }

  /**
   * `out` is display line `i` of `line`: the number column, then `>>> ` on
   * the label line and four spaces on any other, then the line's text.
   */
  predicate LineParts(out: string, i: nat, line: string, procLine: nat, numbered: bool)
  {
    var m := Marker(i, numbered);
    && |m| + 4 <= |out|
    && out[..|m|] == m
    && (out[|m|..|m| + 4] == ">>> " <==> i == procLine)
    && out[|m| + 4..] == RStrip(line)
  }

  /** A display line is made of its three parts, and a file line gives one without a newline. */
  lemma {:induction false} FormatLineParts(i: nat, line: string, procLine: nat, numbered: bool)
    requires IsFileLine(line)
    ensures var f := FormatLine(i, line, procLine, numbered);
            '\n' !in f && LineParts(f, i, line, procLine, numbered)
  {
    var m, h, t := Marker(i, numbered), Highlight(i, procLine), RStrip(line);
    RStripFileLine(line);
    NoNewlineInMarker(i, numbered);
    var f := m + h + t;
    assert f[..|m|] == m && f[|m|..|m| + 4] == h && f[|m| + 4..] == t;
  }

  /** The number column holds no newline. */
  lemma {:induction false} NoNewlineInMarker(i: nat, numbered: bool)
    ensures '\n' !in Marker(i, numbered)
  {
    if numbered {
      var d := Decimal(i + 1);
      var p := PadLeft(d, 4);
      forall k | 0 <= k < |p|
        ensures p[k] != '\n'
      {
        if k < |p| - |d| {
          assert p[..|p| - |d|][k] == p[k];
        } else {
          assert p[k] == d[k - (|p| - |d|)];
          assert IsDigitIn(d[k - (|p| - |d|)], 10);
        }
      }
    }
  }
}
