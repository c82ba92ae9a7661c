/**
 * `parse_analysis_report`: the procedure database seeded from the analysis
 * report. Every line of the form `sub_XXXX: visual effect (frame N)` becomes
 * a pending database row in the scene of the last `--- scene ---` header.
 */
module VisualProcs {
  import opened Results
  import opened Text
  import opened Numerals
  import opened Seqs
  import opened DiffAnalysis
  import opened AnalysisReport
  import opened TasScenes

  /** A row of the procedure database, with the frame as a number. */
  datatype Procedure = Procedure(oldName: string, scene: string, frame: nat, newName: string,
                                 description: string, category: string, status: string)

  /** A character of `[0-9A-Fa-f]`. */
  predicate IsHex(c: char)
  {
    IsDigitIn(c, 16)
  }

  /** A character of `\d`, taken as ASCII: one of `0-9`. */
  predicate IsDecimal(c: char)
  {
    IsDigitIn(c, 10)
  }

  /** A name `sub_` followed by one or more hex digits, as the pattern captures it. */
  predicate IsSubName(n: string)
  {
    |n| > 4 && StartsWith(n, "sub_") && forall i :: 4 <= i < |n| ==> IsHex(n[i])
  }

  /** A sub-name has no colon in it. */
  lemma {:induction false} SubNameNoColon(n: string)
    requires IsSubName(n)
    ensures ':' !in n
  {
    forall i | 0 <= i < |n|
      ensures n[i] != ':'
    {
      if i < 4 {
        assert n[..4][i] == n[i];
      } else {
        assert IsHex(n[i]);
      }
    }
  }

  /** Two colon-free names that both open `line` with a colon are the same name. */
  lemma {:induction false} ColonPrefix(line: string, a: string, b: string)
    requires ':' !in a && ':' !in b
    requires StartsWith(line, a + ":") && StartsWith(line, b + ":")
    ensures a == b
  {
    assert forall i :: 0 <= i < |a| ==> line[i] == a[i] by {
      assert forall i :: 0 <= i < |a| ==> (a + ":")[i] == a[i];
    }
    assert forall i :: 0 <= i < |b| ==> line[i] == b[i] by {
      assert forall i :: 0 <= i < |b| ==> (b + ":")[i] == b[i];
    }
    assert line[|a|] == ':' && line[|b|] == ':' by {
      assert (a + ":")[|a|] == ':' && (b + ":")[|b|] == ':';
    }
    assert |a| == |b|;
    assert a == line[..|a|] == b;
  }

  /**
   * `re.match(r'^(sub_[0-9A-Fa-f]+):\s*visual effect\s*\(frame\s+(\d+)\)', line)`:
   * the captured name and the frame it reads. Every repetition in the pattern
   * is followed by a character it cannot consume, so matching is one scan.
   */
  function MatchRecord(line: string): (r: Option<(string, nat)>)
    ensures r.Some? ==> IsSubName(r.value.0) && StartsWith(line, r.value.0 + ":")
    ensures r.Some? ==> AfterColon(line, |r.value.0|) == Some(r.value.1)
  {
    if !StartsWith(line, "sub_") then None
    else
      var h := Run(line, 4, IsHex);
      var colon := 4 + h;
      if h == 0 || colon >= |line| || line[colon] != ':' then None
      else
        var name := line[..colon];
        assert |name| == colon;
        assert StartsWith(line, name + ":") by {
          assert line[..colon + 1] == name + ":";
        }
        var frame := AfterColon(line, colon);
        if frame.None? then None else Some((name, frame.value))
  }

  /** What follows the name's colon: `\s*visual effect\s*\(frame\s+(\d+)\)`. */
  function AfterColon(line: string, colon: nat): (r: Option<nat>)
    requires colon < |line|
    ensures r.Some? ==> OccursAt(line, "visual effect", colon + 1 + Run(line, colon + 1, IsSpace))
  {
    FrameAfter(line, colon + 1 + Run(line, colon + 1, IsSpace))
  }

  /** `visual effect\s*\(frame\s+(\d+)\)` at index `v`: the frame it reads. */
  function FrameAfter(line: string, v: nat): (r: Option<nat>)
    requires v <= |line|
    ensures r.Some? ==> OccursAt(line, "visual effect", v)
  {
    if !OccursAt(line, "visual effect", v) then None
    else FrameParen(line, v + 13 + Run(line, v + 13, IsSpace))
  }

  /** `\(frame\s+(\d+)\)` at index `f`. */
  function FrameParen(line: string, f: nat): (r: Option<nat>)
    requires f <= |line|
    ensures r.Some? ==> OccursAt(line, "(frame", f)
  {
    if !OccursAt(line, "(frame", f) then None else FrameDigits(line, f + 6)
  }

  /** `\s+(\d+)\)` at index `i`: the number the digits spell. */
  function FrameDigits(line: string, i: nat): (r: Option<nat>)
    requires i <= |line|
  {
    var sp := Run(line, i, IsSpace);
    var d := i + sp;
    var nd := Run(line, d, IsDecimal);
    if sp == 0 || nd == 0 || d + nd >= |line| || line[d + nd] != ')' then None
    else Some(DigitsValue(line[d..d + nd], 10))
  }

  /** A string occurs where it is appended. */
  lemma {:induction false} OccursAppended(a: string, b: string)
    ensures OccursAt(a + b, b, |a|)
  {
    assert (a + b)[|a|..] == b;
  }

  /** An occurrence survives appending more text. */
  lemma {:induction false} OccursExtended(a: string, b: string, x: string, i: nat)
    requires OccursAt(a, x, i)
    ensures OccursAt(a + b, x, i)
  {
    assert (a + b)[i..i + |x|] == a[i..i + |x|];
  }

  /** `visual effect (frame N)` laid out at index `v` reads as frame `N`. */
  lemma {:induction false} FrameAt(line: string, v: nat, frame: nat)
    requires OccursAt(line, "visual effect", v) && OccursAt(line, " (frame ", v + 13)
    requires OccursAt(line, Decimal(frame), v + 21)
    requires v + 21 + |Decimal(frame)| < |line| && line[v + 21 + |Decimal(frame)|] == ')'
    ensures FrameAfter(line, v) == Some(frame)
  {
    assert line[v + 13] == ' ' && line[v + 14] == '(' && line[v + 20] == ' ' by {
      assert line[v + 13..v + 21] == " (frame ";
    }
    assert OccursAt(line, "(frame", v + 14) by {
      assert line[v + 14..v + 20] == line[v + 13..v + 21][1..7] == " (frame "[1..7];
    }
    SingleSpace(line, v + 13);
    FrameDigitsAt(line, v + 20, frame);
  }

  /** ` N)` laid out at index `i` reads as `N`. */
  lemma {:induction false} FrameDigitsAt(line: string, i: nat, frame: nat)
    requires i < |line| && line[i] == ' ' && OccursAt(line, Decimal(frame), i + 1)
    requires i + 1 + |Decimal(frame)| < |line| && line[i + 1 + |Decimal(frame)|] == ')'
    ensures FrameDigits(line, i) == Some(frame)
  {
    var digits := Decimal(frame);
    var e := i + 1 + |digits|;
    assert line[i + 1] == digits[0] by {
      assert line[i + 1..e][0] == digits[0];
    }
    SingleSpace(line, i);
    DecimalRun(line, i + 1, digits);
    assert line[i + 1..e] == digits;
  }

  /** One space followed by something else is a run of one. */
  lemma {:induction false} SingleSpace(line: string, i: nat)
    requires i + 1 < |line| && line[i] == ' ' && !IsSpace(line[i + 1])
    ensures Run(line, i, IsSpace) == 1
  {
    assert Run(line, i + 1, IsSpace) == 0;
    assert IsSpace(line[i]);
  }

  /** Decimal digits laid out at `d` and followed by `)` are a run of exactly their length. */
  lemma {:induction false} DecimalRun(line: string, d: nat, digits: string)
    requires OccursAt(line, digits, d) && AllDigitsIn(digits, 10)
    requires d + |digits| < |line| && line[d + |digits|] == ')'
    ensures Run(line, d, IsDecimal) == |digits|
  {
    assert forall j :: d <= j < d + |digits| ==> IsDecimal(line[j]) by {
      forall j | d <= j < d + |digits|
        ensures IsDecimal(line[j])
      {
        assert line[j] == line[d..d + |digits|][j - d] == digits[j - d];
      }
    }
    assert !IsDecimal(line[d + |digits|]);
    RunExact(line, d, |digits|, IsDecimal);
  }

  /** After a sub-name, its colon and one space, the rest of the line decides the match. */
  lemma {:induction false} MatchSubName(line: string, name: string)
    requires IsSubName(name) && StartsWith(line, name + ": ")
    requires |name| + 2 < |line| && !IsSpace(line[|name| + 2])
    ensures MatchRecord(line) == match FrameAfter(line, |name| + 2)
                                 case None => None
                                 case Some(f) => Some((name, f))
  {
    var n := |name|;
    assert line[..n] == name && line[n] == ':' && line[n + 1] == ' ' by {
      assert line[..n + 2] == name + ": ";
      assert line[..n] == line[..n + 2][..n];
    }
    assert StartsWith(line, "sub_") by {
      assert line[..4] == name[..4];
    }
    assert Run(line, 4, IsHex) == n - 4 by {
      assert forall j :: 4 <= j < n ==> line[j] == name[j];
      RunExact(line, 4, n - 4, IsHex);
    }
    AfterOneSpace(line, n);
    MatchRecordAt(line, n);
  }

  /** A colon at `n` followed by exactly one space: the text after the space decides. */
  lemma {:induction false} AfterOneSpace(line: string, n: nat)
    requires n + 2 < |line| && line[n + 1] == ' ' && !IsSpace(line[n + 2])
    ensures AfterColon(line, n) == FrameAfter(line, n + 2)
  {
    SingleSpace(line, n + 1);
  }

  /** A line that opens with `sub_`, hex digits up to index `n` and a colon there: the rest decides. */
  lemma {:induction false} MatchRecordAt(line: string, n: nat)
    requires StartsWith(line, "sub_") && n > 4 && Run(line, 4, IsHex) == n - 4
    requires n < |line| && line[n] == ':'
    ensures MatchRecord(line) == match AfterColon(line, n)
                                 case None => None
                                 case Some(f) => Some((line[..n], f))
  {
  }

  /**
   * A line whose text after the name, its colon and one space does not
   * start with `visual effect` is not a record, whatever the name.
   */
  lemma {:induction false} NoVisualText(line: string, name: string)
    requires ':' !in name && StartsWith(line, name + ": ")
    requires |name| + 2 < |line| && !IsSpace(line[|name| + 2])
    requires !OccursAt(line, "visual effect", |name| + 2)
    ensures MatchRecord(line) == None
  {
    var n := |name|;
    assert StartsWith(line, name + ":") by {
      assert line[..n + 1] == (name + ": ")[..n + 1] == name + ":";
    }
    assert line[n + 1] == ' ' by {
      assert line[n + 1] == (name + ": ")[n + 1];
    }
    SingleSpace(line, n + 1);
    if MatchRecord(line).Some? {
      var m := MatchRecord(line).value.0;
      SubNameNoColon(m);
      ColonPrefix(line, m, name);
      assert false;
    }
  }

  /** The text `name: visual effect (frame N)` that marks a procedure's visual effect. */
  function VisualText(name: string, frame: nat): string
  {
    name + ": " + "visual effect" + " (frame " + Decimal(frame) + ")"
  }

  /** The marker text reads back as its name and frame. */
  lemma {:induction false} MatchVisualText(name: string, frame: nat)
    requires IsSubName(name)
    ensures MatchRecord(VisualText(name, frame)) == Some((name, frame))
  {
    var line, h := VisualText(name, frame), |name| + 2;
    VisualTextLayout(name, frame);
    FrameAt(line, h, frame);
    MatchSubName(line, name);
  }

  /** Where the parts of the marker text sit. */
  lemma {:induction false} VisualTextLayout(name: string, frame: nat)
    ensures var line, h, digits := VisualText(name, frame), |name| + 2, Decimal(frame);
            && StartsWith(line, name + ": ")
            && OccursAt(line, "visual effect", h) && line[h] == 'v'
            && OccursAt(line, " (frame ", h + 13)
            && OccursAt(line, digits, h + 21)
            && h + 21 + |digits| < |line| && line[h + 21 + |digits|] == ')'
  {
    var head := name + ": ";
    var a := head + "visual effect";
    var b := a + " (frame ";
    var c := b + Decimal(frame);
    var line := c + ")";
    assert OccursAt(line, "visual effect", |head|) by {
      OccursAppended(head, "visual effect");
      OccursExtended(a, " (frame ", "visual effect", |head|);
      OccursExtended(b, Decimal(frame), "visual effect", |head|);
      OccursExtended(c, ")", "visual effect", |head|);
    }
    assert OccursAt(line, " (frame ", |a|) by {
      OccursAppended(a, " (frame ");
      OccursExtended(b, Decimal(frame), " (frame ", |a|);
      OccursExtended(c, ")", " (frame ", |a|);
    }
    assert OccursAt(line, Decimal(frame), |b|) by {
      OccursAppended(b, Decimal(frame));
      OccursExtended(c, ")", Decimal(frame), |b|);
    }
    assert line[|c|] == ')';
    assert StartsWith(line, head) by {
      assert line[..|head|] == head;
    }
    assert line[|head|] == 'v' by {
      assert line[|head|..|head| + 13][0] == 'v';
    }
  }

  // ---------------------------------------------------------------------------
  // The line loop
  // ---------------------------------------------------------------------------

  /** A stripped line `--- name ---`: a scene header. */
  predicate IsHeader(line: string)
  {
    StartsWith(line, "--- ") && EndsWith(line, " ---")
  }

  /** `line[4:-4].strip()`; the seven-character header `--- ---` slices to nothing. */
  function HeaderName(line: string): string
    requires IsHeader(line)
  {
    if |line| >= 8 then Strip(line[4..|line| - 4]) else ""
  }

  /** `current_scene if current_scene else 'Unknown'`. */
  function SceneLabel(current: Option<string>): (scene: string)
    ensures scene != []
    ensures current.Some? && current.value != [] ==> scene == current.value
  {
    if current.Some? && current.value != [] then current.value else "Unknown"
  }

  /** A fresh database row: found in a scene at a frame, not yet analysed. */
  function Pending(name: string, scene: string, frame: nat): Procedure
  {
    Procedure(name, scene, frame, "", "", "", "pending")
  }

  /** The text `': visual effect (frame '` a line must contain before the pattern is tried. */
  const Marker := ": " + "visual effect" + " (frame "

  /**
   * One line of the loop in the scene `current`: a header moves to its scene;
   * a line with the marker text that matches the pattern yields a row.
   */
  function Step(current: Option<string>, raw: string): (r: (Option<string>, Option<Procedure>))
    ensures IsHeader(Strip(raw)) ==> r == (Some(HeaderName(Strip(raw))), None)
    ensures !IsHeader(Strip(raw)) ==> r.0 == current
    ensures r.1.Some? ==> r.1.value == Pending(r.1.value.oldName, SceneLabel(current), r.1.value.frame)
                          && IsSubName(r.1.value.oldName) && Contains(Strip(raw), Marker)
    ensures !IsHeader(Strip(raw)) ==>
              r.1 == (if Contains(Strip(raw), Marker) && MatchRecord(Strip(raw)).Some?
                      then Some(Pending(MatchRecord(Strip(raw)).value.0, SceneLabel(current), MatchRecord(Strip(raw)).value.1))
                      else None)
  {
    var line := Strip(raw);
    if IsHeader(line) then (Some(HeaderName(line)), None)
    else if !Contains(line, Marker) then (current, None)
    else
      match MatchRecord(line)
      case None => (current, None)
      case Some((name, frame)) => (current, Some(Pending(name, SceneLabel(current), frame)))
  }

  /** `parse_analysis_report` on the report's lines: the rows found, in file order. */
  function ParseAnalysisReport(lines: seq<string>): (ps: seq<Procedure>)
    ensures AllFresh(ps)
  {
    RowsAreFresh(None, lines);
    ScanOut(Step, None, lines)
  }

  /** The scene after `lines`: the name in the last header among them, or none before the first header. */
  function LastHeader(lines: seq<string>): Option<string>
  {
    if lines == [] then None
    else if IsHeader(Strip(lines[|lines| - 1])) then Some(HeaderName(Strip(lines[|lines| - 1])))
    else LastHeader(lines[..|lines| - 1])
  }

  /**
   * The rows one report line gives in the scene `current`: a non-header line
   * holding the marker text that the pattern matches gives the pending row of
   * the matched name and frame; any other line gives none.
   */
  function LineRows(current: Option<string>, raw: string): seq<Procedure>
  {
    var line := Strip(raw);
    if !IsHeader(line) && Contains(line, Marker) && MatchRecord(line).Some? then
      [Pending(MatchRecord(line).value.0, SceneLabel(current), MatchRecord(line).value.1)]
    else []
  }

  /** After any lines, the loop is in the scene of the last header read. */
  lemma {:induction false} SceneIsLastHeader(lines: seq<string>)
    ensures ScanState(Step, None, lines) == LastHeader(lines)
    decreases |lines|
  {
    if lines != [] {
      var init, last := lines[..|lines| - 1], lines[|lines| - 1];
      assert lines == init + [last];
      ScanAppend(Step, None, init, [last]);
      ScanSingle(Step, ScanState(Step, None, init), last);
      SceneIsLastHeader(init);
    }
  }

  /**
   * Reading one more line of any report adds that line's rows, in the scene
   * of the last header before it, after the rows found so far.
   */
  lemma {:induction false} ParseAnalysisReportAppend(lines: seq<string>, raw: string)
    ensures ParseAnalysisReport(lines + [raw]) == ParseAnalysisReport(lines) + LineRows(LastHeader(lines), raw)
  {
    ScanAppend(Step, None, lines, [raw]);
    ScanSingle(Step, ScanState(Step, None, lines), raw);
    SceneIsLastHeader(lines);
  }

  /** Every row of `ps` is fresh. */
  predicate AllFresh(ps: seq<Procedure>)
  {
    forall k :: 0 <= k < |ps| ==> FreshRow(ps[k])
  }

  /** A row as the extractor writes it: a sub-procedure with a scene, pending, nothing filled in. */
  predicate FreshRow(p: Procedure)
  {
    && p.status == "pending" && IsSubName(p.oldName) && p.scene != []
    && p.newName == [] && p.description == [] && p.category == []
  }

  /** Every row the loop yields is fresh. */
  lemma {:induction false} RowsAreFresh(current: Option<string>, lines: seq<string>)
    ensures AllFresh(ScanOut(Step, current, lines))
  {
    forall t, raw {
      StepFresh(t, raw);
    }
    ScanOutAll(Step, current, lines, FreshRow);
  }

  /** The row a line yields, if any, is fresh. */
  lemma {:induction false} StepFresh(current: Option<string>, raw: string)
    ensures var r := Step(current, raw); r.1.Some? ==> FreshRow(r.1.value)
  {
  }

  /** A header line moves the loop to its scene, stripped, and yields nothing. */
  lemma {:induction false} HeaderStep(current: Option<string>, name: string)
    ensures Step(current, "--- " + name + " ---") == (Some(Strip(name)), None)
  {
    var line := "--- " + name + " ---";
    assert line[0] == '-' && line[|line| - 1] == '-';
    StripOfStripped(line);
    assert line[..4] == "--- " && line[|line| - 4..] == " ---";
    assert line[4..|line| - 4] == name;
  }

  /** A line that strips to nothing, or to text opening with neither `s` nor `-`. */
  predicate Quiet(raw: string)
  {
    var line := Strip(raw);
    line == [] || (line[0] != 's' && line[0] != '-')
  }

  /** A quiet line changes nothing: it is neither a header nor a record. */
  lemma {:induction false} QuietStep(current: Option<string>, raw: string)
    requires Quiet(raw)
    ensures Step(current, raw) == (current, None)
  {
    var line := Strip(raw);
    if line != [] {
      assert !StartsWith(line, "--- ") by {
        assert "--- "[0] == '-';
      }
      assert !StartsWith(line, "sub_") by {
        assert "sub_"[0] == 's';
      }
      assert MatchRecord(line) == None;
    }
  }

  /** Lines that each change nothing yield nothing and leave the scene alone. */
  lemma {:induction false} QuietLines(current: Option<string>, lines: seq<string>)
    requires forall k :: 0 <= k < |lines| ==> Step(current, lines[k]) == (current, None)
    ensures ScanOut(Step, current, lines) == []
    ensures ScanState(Step, current, lines) == current
    decreases |lines|
  {
    if lines != [] {
      assert forall k :: 1 <= k < |lines| ==> lines[1..][k - 1] == lines[k];
      QuietLines(current, lines[1..]);
    }
  }

  /** A line opened by a colon-free name that is not a sub-name is not a record. */
  lemma {:induction false} NotSubName(line: string, name: string)
    requires ':' !in name && StartsWith(line, name + ":") && !IsSubName(name)
    ensures MatchRecord(line) == None
  {
    if MatchRecord(line).Some? {
      var m := MatchRecord(line).value.0;
      SubNameNoColon(m);
      ColonPrefix(line, m, name);
      assert false;
    }
  }

  /** A text cannot occur where one of its characters does not. */
  lemma {:induction false} CharBlocks(line: string, i: nat, p: string, j: nat)
    requires j < |p| && i + j < |line| && line[i + j] != p[j]
    ensures !OccursAt(line, p, i)
  {
    assert i + |p| <= |line| ==> line[i..i + |p|][j] == line[i + j];
  }

  /** Cutting off the first piece of a three-piece text leaves the other pieces. */
  lemma {:induction false} DropFirst(x: string, p: string, q: string, r: string)
    ensures (x + p + q + r)[|x|..] == p + q + r
  {
  }

  // ---------------------------------------------------------------------------
  // Reading back the report
  // ---------------------------------------------------------------------------

  /** A procedure name the report writes unambiguously: no colon, no leading whitespace. */
  predicate PlainName(n: string)
  {
    n != [] && !IsSpace(n[0]) && ':' !in n
  }

  /** The entry's description is the phrase for its change type, as the report builds it. */
  predicate Described(e: Entry)
  {
    e.changeDesc == ChangeDesc(e.changeType.Name())
  }

  /** An entry the extractor picks up: a visual change of a `sub_` procedure. */
  predicate Extractable(e: Entry)
  {
    e.changeType == VisualChange && IsSubName(e.procedure)
  }

  /** The row the extractor makes of an entry in a scene. */
  function RowOf(e: Entry, scene: string): Procedure
  {
    Pending(e.procedure, scene, e.firstFrame)
  }

  /** What a description looks like: `visual effect` for a visual change, a phrase not starting with `v` otherwise. */
  lemma {:induction false} DescriptionShape(e: Entry)
    requires Described(e)
    ensures e.changeDesc != [] && !IsSpace(e.changeDesc[0]) && !IsSpace(e.changeDesc[|e.changeDesc| - 1])
    ensures e.changeDesc[|e.changeDesc| - 1] != '-'
    ensures e.changeType == VisualChange ==> e.changeDesc == "visual effect"
    ensures e.changeType != VisualChange ==> e.changeDesc[0] != 'v'
  {
    match e.changeType
    case NoDiffs =>
    case BlackScreen =>
    case RedScreen =>
    case Frozen =>
    case VisualChange =>
  }

  /** A scene-section line has no surrounding whitespace, is no header, and opens with the name and a colon. */
  lemma {:induction false} EntryLineShape(e: Entry)
    requires PlainName(e.procedure) && Described(e)
    ensures var line := EntryLine(e);
            && Strip(line) == line && !IsHeader(line)
            && StartsWith(line, e.procedure + ": ") && StartsWith(line, e.procedure + ":")
            && |e.procedure| + 2 < |line| && line[|e.procedure| + 2] == e.changeDesc[0]
  {
    var name := e.procedure;
    var n := |name|;
    var head := name + ": ";
    var a := head + e.changeDesc;
    var line := EntryLine(e);
    DescriptionShape(e);
    assert line[..|a|] == a;
    assert StartsWith(line, head) by {
      assert line[..|head|] == head;
    }
    assert StartsWith(line, name + ":") by {
      assert line[..n + 1] == name + ":";
    }
    assert line[0] == name[0] && line[|line| - 1] == ')';
    StripOfStripped(line);
    assert line[n + 2] == a[n + 2] == e.changeDesc[0];
  }

  /** A scene-section line yields the entry's row exactly when the entry is extractable. */
  lemma {:induction false} EntryStep(current: Option<string>, e: Entry)
    requires PlainName(e.procedure) && Described(e)
    ensures Step(current, EntryLine(e))
            == (current, if Extractable(e) then Some(RowOf(e, SceneLabel(current))) else None)
  {
    EntryLineShape(e);
    if Extractable(e) {
      ExtractableMatch(e);
      ExtractableMarker(e);
    } else {
      OtherEntryMatch(e);
    }
  }

  /** An extractable entry's line matches as its name and frame. */
  lemma {:induction false} ExtractableMatch(e: Entry)
    requires PlainName(e.procedure) && Described(e) && Extractable(e)
    ensures MatchRecord(EntryLine(e)) == Some((e.procedure, e.firstFrame))
  {
    DescriptionShape(e);
    assert EntryLine(e) == VisualText(e.procedure, e.firstFrame);
    MatchVisualText(e.procedure, e.firstFrame);
  }

  /** An extractable entry's line carries the marker text. */
  lemma {:induction false} ExtractableMarker(e: Entry)
    requires Described(e) && e.changeType == VisualChange
    ensures Contains(EntryLine(e), Marker)
  {
    var name := e.procedure;
    var b := name + ": " + e.changeDesc + " (frame ";
    var c := b + Decimal(e.firstFrame);
    DescriptionShape(e);
    DropFirst(name, ": ", e.changeDesc, " (frame ");
    OccursExtended(b, Decimal(e.firstFrame), Marker, |name|);
    OccursExtended(c, ")", Marker, |name|);
    OccursContains(c + ")", Marker, |name|);
  }

  /** Any other entry's line does not match. */
  lemma {:induction false} OtherEntryMatch(e: Entry)
    requires PlainName(e.procedure) && Described(e) && !Extractable(e)
    ensures MatchRecord(EntryLine(e)) == None
  {
    var name := e.procedure;
    var line := EntryLine(e);
    EntryLineShape(e);
    if !IsSubName(name) {
      NotSubName(line, name);
    } else {
      DescriptionShape(e);
      CharBlocks(line, |name| + 2, "visual effect", 0);
      NoVisualText(line, name);
    }
  }

  /** A scene name the summary writes unambiguously: stripped, and not opening with `visual effect`. */
  predicate SceneText(name: string)
  {
    Strip(name) == name && !StartsWith(name, "visual effect")
  }

  /** A scene name followed by ` - ` cannot be read as `visual effect`. */
  lemma {:induction false} SceneBlocksMatch(line: string, i: nat, scene: string)
    requires i + |scene| + 1 < |line| && line[i..i + |scene|] == scene
    requires line[i + |scene|] == ' ' && line[i + |scene| + 1] == '-'
    requires !StartsWith(scene, "visual effect")
    ensures !OccursAt(line, "visual effect", i)
  {
    if |scene| >= 13 {
      assert line[i..i + 13] == scene[..13];
    } else if |scene| == 12 {
      CharBlocks(line, i, "visual effect", 12);
    } else {
      assert "visual effect"[|scene| + 1] != '-';
      CharBlocks(line, i, "visual effect", |scene| + 1);
    }
  }

  /** The scene the summary writes for an entry. */
  function SummaryScene(e: Entry): string
  {
    if Known(e) then e.scene.value else "unknown"
  }

  /** A summary line has no surrounding whitespace and is no header. */
  lemma {:induction false} SummaryLineShape(e: Entry)
    requires PlainName(e.procedure) && Described(e)
    ensures Strip(SummaryLine(e)) == SummaryLine(e) && !IsHeader(SummaryLine(e))
  {
    var line := SummaryLine(e);
    DescriptionShape(e);
    assert line[0] == e.procedure[0] && line[|line| - 1] == e.changeDesc[|e.changeDesc| - 1];
    StripOfStripped(line);
  }

  /** `name: scene - rest` does not match the pattern when the scene cannot start `visual effect`. */
  lemma {:induction false} SceneDashNoMatch(name: string, scene: string, rest: string)
    requires name != [] && ':' !in name
    requires scene != [] && !IsSpace(scene[0]) && !StartsWith(scene, "visual effect")
    ensures MatchRecord(name + ": " + scene + " - " + rest) == None
  {
    var n := |name|;
    var b := name + ": " + scene + " - ";
    var line := b + rest;
    assert StartsWith(line, name + ": ") by {
      assert line[..n + 2] == name + ": ";
    }
    assert line[n + 2..n + 2 + |scene|] == scene;
    assert line[n + 2 + |scene|] == ' ' && line[n + 3 + |scene|] == '-' by {
      assert line[..|b|] == b;
    }
    SceneBlocksMatch(line, n + 2, scene);
    NoVisualText(line, name);
  }

  /** A summary line does not match the pattern. */
  lemma {:induction false} SummaryMatch(e: Entry)
    requires PlainName(e.procedure) && Described(e)
    requires Known(e) ==> SceneText(e.scene.value)
    ensures MatchRecord(SummaryLine(e)) == None
  {
    var scene := SummaryScene(e);
    assert scene != [] && !IsSpace(scene[0]) && !StartsWith(scene, "visual effect") by {
      if Known(e) {
        assert scene == Strip(scene);
      }
    }
    SceneDashNoMatch(e.procedure, scene, e.changeDesc);
  }

  /** A summary line never yields a row and leaves the scene alone. */
  lemma {:induction false} SummaryStep(current: Option<string>, e: Entry)
    requires PlainName(e.procedure) && Described(e)
    requires Known(e) ==> SceneText(e.scene.value)
    ensures Step(current, SummaryLine(e)) == (current, None)
  {
    SummaryLineShape(e);
    SummaryMatch(e);
  }

  /** An entry the report writes so that its lines read back unambiguously. */
  predicate Writable(e: Entry)
  {
    PlainName(e.procedure) && Described(e) && (Known(e) ==> SceneText(e.scene.value))
  }

  /** Every entry of the list is writable. */
  predicate AllWritable(es: seq<Entry>)
  {
    forall e :: e in es ==> Writable(e)
  }

  /** The rows the extractor should find among entries listed under `scene`: the extractable ones, in order. */
  function RowsOf(scene: string, es: seq<Entry>): seq<Procedure>
  {
    MapAll((e: Entry) => RowOf(e, scene), Filter(Extractable, es))
  }

  /** A permutation of writable entries is writable. */
  lemma {:induction false} WritablePermutation(es: seq<Entry>, xs: seq<Entry>)
    requires AllWritable(es) && multiset(xs) <= multiset(es)
    ensures AllWritable(xs)
  {
    forall e | e in xs
      ensures Writable(e)
    {
      assert e in multiset(xs);
    }
  }

  /** The lines of a scene section's entries yield the rows of its extractable entries, in order. */
  lemma {:induction false} EntryLinesScan(current: Option<string>, es: seq<Entry>)
    requires AllWritable(es)
    ensures ScanOut(Step, current, MapAll(EntryLine, es)) == RowsOf(SceneLabel(current), es)
    ensures ScanState(Step, current, MapAll(EntryLine, es)) == current
    decreases |es|
  {
    var scene := SceneLabel(current);
    if es == [] {
      assert MapAll(EntryLine, es) == [];
      assert Filter(Extractable, es) == [];
    } else {
      var front := es[..|es| - 1];
      var last := es[|es| - 1];
      assert es == front + [last];
      assert AllWritable(front) && Writable(last) by {
        assert forall e :: e in front ==> e in es;
        assert last in es;
      }
      EntryLinesScan(current, front);
      EntryLineSnoc(current, front, last);
      RowsOfSnoc(scene, front, last);
    }
  }

  /** One more entry line, read in the section's scene, adds that entry's row if it has one. */
  lemma {:induction false} EntryLineSnoc(current: Option<string>, front: seq<Entry>, last: Entry)
    requires Writable(last) && ScanState(Step, current, MapAll(EntryLine, front)) == current
    ensures ScanOut(Step, current, MapAll(EntryLine, front + [last]))
            == ScanOut(Step, current, MapAll(EntryLine, front))
               + (if Extractable(last) then [RowOf(last, SceneLabel(current))] else [])
    ensures ScanState(Step, current, MapAll(EntryLine, front + [last])) == current
  {
    MapAllAppend(EntryLine, front, [last]);
    assert MapAll(EntryLine, [last]) == [EntryLine(last)];
    ScanAppend(Step, current, MapAll(EntryLine, front), [EntryLine(last)]);
    ScanSingle(Step, current, EntryLine(last));
    EntryStep(current, last);
  }

  /** The rows of one more entry: those before, then its own if it is extractable. */
  lemma {:induction false} RowsOfSnoc(scene: string, front: seq<Entry>, last: Entry)
    ensures RowsOf(scene, front + [last])
            == RowsOf(scene, front) + (if Extractable(last) then [RowOf(last, scene)] else [])
  {
    var f := (e: Entry) => RowOf(e, scene);
    FilterSnoc(Extractable, front, last);
    var tail: seq<Entry> := if Extractable(last) then [last] else [];
    MapAllAppend(f, Filter(Extractable, front), tail);
    assert MapAll(f, tail) == (if Extractable(last) then [RowOf(last, scene)] else []);
  }

  /** The three lines of a scene header move the loop to the stripped scene and yield nothing. */
  lemma {:induction false} HeaderLinesScan(current: Option<string>, name: string)
    ensures ScanOut(Step, current, SceneHeader(name)) == []
    ensures ScanState(Step, current, SceneHeader(name)) == Some(Strip(name))
  {
    var h := SceneHeader(name);
    QuietStep(current, "");
    HeaderStep(current, name);
    QuietStep(Some(Strip(name)), "");
    assert h == [""] + ["--- " + name + " ---"] + [""];
    ScanAppend(Step, current, [""] + ["--- " + name + " ---"], [""]);
    ScanAppend(Step, current, [""], ["--- " + name + " ---"]);
    ScanSingle(Step, current, "");
    ScanSingle(Step, current, "--- " + name + " ---");
    ScanSingle(Step, Some(Strip(name)), "");
  }

  /** A scene's block yields the rows of its extractable entries, labelled with the scene. */
  lemma {:induction false} SceneBlockScan(current: Option<string>, es: seq<Entry>, name: string)
    requires AllWritable(es) && name != [] && Strip(name) == name
    ensures ScanOut(Step, current, SceneBlock(es, name)) == RowsOf(name, SortedGroup(es, name))
  {
    var g := SortedGroup(es, name);
    assert AllWritable(g) by {
      assert multiset(Group(es, name)) <= multiset(es) by {
        FilterSubset((e: Entry) => Under(e, name), es);
      }
      WritablePermutation(es, g);
    }
    HeaderLinesScan(current, name);
    ScanAppend(Step, current, SceneHeader(name), MapAll(EntryLine, g));
    EntryLinesScan(Some(name), g);
  }

  /** The rows the scene sections give: each listed scene's extractable entries in block order. */
  function SectionRows(es: seq<Entry>, names: seq<string>): seq<Procedure>
  {
    if names == [] then [] else RowsOf(names[0], SortedGroup(es, names[0])) + SectionRows(es, names[1..])
  }

  /** A scene name the report can head a section with: non-empty and stripped. */
  predicate Heading(name: string)
  {
    name != [] && Strip(name) == name
  }

  /** The scene sections one after the other yield their rows one after the other. */
  lemma {:induction false} SceneBlocksScan(current: Option<string>, es: seq<Entry>, names: seq<string>)
    requires AllWritable(es)
    requires forall k :: 0 <= k < |names| ==> Heading(names[k])
    ensures ScanOut(Step, current, SceneBlocks(es, names)) == SectionRows(es, names)
    decreases |names|
  {
    if names != [] {
      var block := SceneBlock(es, names[0]);
      ScanAppend(Step, current, block, SceneBlocks(es, names[1..]));
      SceneBlockScan(current, es, names[0]);
      assert forall k :: 0 <= k < |names[1..]| ==> Heading(names[1..][k]) by {
        assert forall k :: 0 <= k < |names[1..]| ==> names[1..][k] == names[k + 1];
      }
      SceneBlocksScan(ScanState(Step, current, block), es, names[1..]);
    }
  }

  /** The label the unknown block is headed with. */
  const UnknownLabel := "Unknown scene"

  /** The unknown block yields its extractable entries, labelled `Unknown scene`. */
  lemma {:induction false} UnknownBlockScan(current: Option<string>, es: seq<Entry>)
    requires AllWritable(es)
    ensures ScanOut(Step, current, UnknownBlock(es)) == RowsOf(UnknownLabel, SortedUnknown(es))
  {
    var u := SortedUnknown(es);
    assert AllWritable(u) by {
      assert multiset(Unknown(es)) <= multiset(es) by {
        FilterSubset((e: Entry) => !Known(e), es);
      }
      WritablePermutation(es, u);
    }
    if Unknown(es) == [] {
      assert u == [] by {
        SortedByFrame(Unknown(es));
      }
    } else {
      assert Heading(UnknownLabel) by {
        StripOfStripped(UnknownLabel);
      }
      HeaderLinesScan(current, UnknownLabel);
      ScanAppend(Step, current, SceneHeader(UnknownLabel), MapAll(EntryLine, u));
      EntryLinesScan(Some(UnknownLabel), u);
    }
  }

  /** A line whose first non-blank character is neither `s` nor `-` is quiet. */
  lemma {:induction false} OpensQuiet(line: string, i: nat)
    requires i < |line| && forall j :: 0 <= j < i ==> IsSpace(line[j])
    requires !IsSpace(line[i]) && line[i] != 's' && line[i] != '-'
    ensures Quiet(line)
  {
    StripFirst(line, i);
  }

  /** Text opened by a character other than blank, `s` or `-` is quiet, whatever follows. */
  lemma {:induction false} OpenedQuiet(a: string, b: string)
    requires a != [] && !IsSpace(a[0]) && a[0] != 's' && a[0] != '-'
    ensures Quiet(a + b)
  {
    OpensQuiet(a + b, 0);
  }

  /** A blank line and a rule of `=` are quiet. */
  lemma {:induction false} BlankAndRuleQuiet()
    ensures Quiet("") && Quiet(Rule())
  {
    OpensQuiet(Rule(), 0);
  }

  /** Quiet lines yield nothing and leave the scene alone. */
  lemma {:induction false} QuietScan(current: Option<string>, lines: seq<string>)
    requires forall k :: 0 <= k < |lines| ==> Quiet(lines[k])
    ensures ScanOut(Step, current, lines) == []
    ensures ScanState(Step, current, lines) == current
  {
    forall k | 0 <= k < |lines|
      ensures Step(current, lines[k]) == (current, None)
    {
      QuietStep(current, lines[k]);
    }
    QuietLines(current, lines);
  }

  /** The title line of the summary section. */
  const SummaryHeading := "PROCEDURES SUMMARY (alphabetical)"

  /** The summary's title line opens with a capital, so it is quiet. */
  lemma {:induction false} SummaryHeadingQuiet()
    ensures Quiet(SummaryHeading)
  {
    OpensQuiet(SummaryHeading, 0);
  }

  /** The heading of the summary section is quiet. */
  lemma {:induction false} SummaryTitleQuiet(k: nat)
    requires k < 5
    ensures Quiet(["", Rule(), "PROCEDURES SUMMARY (alphabetical)", Rule(), ""][k])
  {
    var lines := ["", Rule(), SummaryHeading, Rule(), ""];
    BlankAndRuleQuiet();
    if k == 2 {
      SummaryHeadingQuiet();
      assert lines[k] == SummaryHeading;
    } else if k == 1 || k == 3 {
      assert lines[k] == Rule();
    } else {
      assert lines[k] == "";
    }
  }

  /** The summary section yields no rows, wherever the scan stands. */
  lemma {:induction false} SummaryScan(current: Option<string>, es: seq<Entry>)
    requires AllWritable(es)
    ensures ScanOut(Step, current, ReportSummary(es)) == []
  {
    var sm := Summary(es);
    assert AllWritable(sm) by {
      SummarySorted(es);
      WritablePermutation(es, sm);
    }
    var lines := ReportSummary(es);
    forall k | 0 <= k < |lines|
      ensures Step(current, lines[k]) == (current, None)
    {
      if k < 5 {
        SummaryTitleQuiet(k);
        QuietStep(current, lines[k]);
      } else {
        var e := sm[k - 5];
        assert lines[k] == SummaryLine(e);
        assert Writable(e) by {
          assert e in sm;
        }
        SummaryStep(current, e);
      }
    }
    QuietLines(current, lines);
  }

  /** A statistics line names a change type, so it is quiet. */
  lemma {:induction false} StatQuiet(t: ChangeType, n: nat)
    ensures Quiet(StatLine((t.Name(), n)))
  {
    var line := StatLine((t.Name(), n));
    assert line[2] == t.Name()[0];
    OpensQuiet(line, 2);
  }

  /** Every statistics pair is named after the change type of some entry. */
  lemma {:induction false} StatisticsNamed(es: seq<Entry>, p: (string, nat))
    requires p in Statistics(es)
    ensures exists t: ChangeType :: t.Name() == p.0
  {
    var all := Grouped(es);
    var pairs := MapAll((n: string) => (n, TypeCount(all, n)), TypeNames(all));
    assert p in multiset(pairs);
    var j :| 0 <= j < |pairs| && pairs[j] == p;
    assert TypeNames(all)[j] in TypeNames(all);
    var i :| 0 <= i < |all| && all[i].changeType.Name() == p.0;
  }

  /** The lines of totals are quiet. */
  lemma {:induction false} TotalsQuiet(rows: seq<ResultRow>, k: nat)
    requires k < |Totals(rows)|
    ensures Quiet(Totals(rows)[k])
  {
    OpensQuiet(Totals(rows)[k], 0);
  }

  /** The banner lines are quiet. */
  lemma {:induction false} BannerQuiet(k: nat)
    requires k < |Banner()|
    ensures Quiet(Banner()[k])
  {
    var lines := Banner();
    BlankAndRuleQuiet();
    if k == 1 {
      OpensQuiet(lines[1], 0);
    } else {
      assert lines[k] == "" || lines[k] == Rule();
    }
  }

  /** The lines between the totals and the statistics are quiet. */
  lemma {:induction false} StatisticsHeadingQuiet(k: nat)
    requires k < 2
    ensures Quiet(["", "Change type statistics:"][k])
  {
    BlankAndRuleQuiet();
    if k == 1 {
      OpensQuiet(["", "Change type statistics:"][k], 0);
    }
  }

  /** The title and totals are quiet. */
  lemma {:induction false} TitleQuiet(rows: seq<ResultRow>)
    ensures var lines := ReportTitle(rows); forall k :: 0 <= k < |lines| ==> Quiet(lines[k])
  {
    var lines := ReportTitle(rows);
    var b, t := Banner(), Totals(rows);
    forall k | 0 <= k < |lines|
      ensures Quiet(lines[k])
    {
      if k < |b| {
        assert lines[k] == b[k];
        BannerQuiet(k);
      } else if k < |b| + |t| {
        assert lines[k] == t[k - |b|];
        TotalsQuiet(rows, k - |b|);
      } else {
        assert lines[k] == ["", "Change type statistics:"][k - |b| - |t|];
        StatisticsHeadingQuiet(k - |b| - |t|);
      }
    }
  }

  /** The statistics lines are quiet. */
  lemma {:induction false} StatisticsQuiet(es: seq<Entry>)
    ensures var lines := MapAll(StatLine, Statistics(es)); forall k :: 0 <= k < |lines| ==> Quiet(lines[k])
  {
    var stats := Statistics(es);
    forall k | 0 <= k < |stats|
      ensures Quiet(StatLine(stats[k]))
    {
      var p := stats[k];
      StatisticsNamed(es, p);
      var t: ChangeType :| t.Name() == p.0;
      StatQuiet(t, p.1);
    }
  }

  /** Each line of the heading of the scene sections is quiet. */
  lemma {:induction false} SectionsTitleLineQuiet(k: nat)
    requires k < |SectionsTitle()|
    ensures Quiet(SectionsTitle()[k])
  {
    var lines := SectionsTitle();
    BlankAndRuleQuiet();
    if k == 2 {
      OpensQuiet(lines[2], 0);
    } else {
      assert lines[k] == "" || lines[k] == Rule();
    }
  }

  /** The heading of the scene sections is quiet. */
  lemma {:induction false} SectionsTitleQuiet()
    ensures forall k :: 0 <= k < |SectionsTitle()| ==> Quiet(SectionsTitle()[k])
  {
    forall k | 0 <= k < |SectionsTitle()|
      ensures Quiet(SectionsTitle()[k])
    {
      SectionsTitleLineQuiet(k);
    }
  }

  /** The head of the report yields no rows, wherever the scan stands. */
  lemma {:induction false} HeadScan(current: Option<string>, rows: seq<ResultRow>, es: seq<Entry>)
    ensures ScanOut(Step, current, ReportHead(rows, es)) == []
  {
    var top := ReportTitle(rows);
    var stats := MapAll(StatLine, Statistics(es));
    var bottom := SectionsTitle();
    TitleQuiet(rows);
    StatisticsQuiet(es);
    SectionsTitleQuiet();
    QuietScan(current, top);
    QuietScan(current, stats);
    QuietScan(current, bottom);
    ScanAppend(Step, current, top, stats);
    ScanAppend(Step, current, top + stats, bottom);
  }

  /** Every scene the report heads a section with is non-empty and stripped. */
  lemma {:induction false} OrderHeadings(es: seq<Entry>, scenes: seq<Scene>)
    requires AllWritable(es)
    ensures var order := SceneOrder(es, scenes); forall k :: 0 <= k < |order| ==> Heading(order[k])
  {
    var order := SceneOrder(es, scenes);
    SceneNamesListed(es);
    forall k | 0 <= k < |order|
      ensures Heading(order[k])
    {
      var n := order[k];
      assert n in SceneNames(es) by {
        assert n in multiset(order);
        assert multiset(order) == multiset(SceneNames(es));
      }
      var i :| 0 <= i < |es| && Under(es[i], n);
      assert Writable(es[i]) by {
        assert es[i] in es;
      }
    }
  }

  /**
   * Reading back a report: the extractor finds exactly the `sub_` procedures
   * the report lists as visual effects, scene by scene in the report's order
   * and by first frame within a scene, each labelled with its scene; the
   * summary and the statistics add nothing.
   */
  lemma {:induction false} ReportExtraction(rows: seq<ResultRow>, es: seq<Entry>, scenes: seq<Scene>)
    requires AllWritable(es)
    ensures ParseAnalysisReport(ReportOf(rows, es, scenes))
            == SectionRows(es, SceneOrder(es, scenes)) + RowsOf(UnknownLabel, SortedUnknown(es))
  {
    var head := ReportHead(rows, es);
    var blocks := SceneBlocks(es, SceneOrder(es, scenes));
    var unknown := UnknownBlock(es);
    var summary := ReportSummary(es);
    assert ReportOf(rows, es, scenes) == head + (blocks + unknown) + summary;
    ScanAppend(Step, None, head + (blocks + unknown), summary);
    ScanAppend(Step, None, head, blocks + unknown);
    var s1 := ScanState(Step, None, head);
    ScanAppend(Step, s1, blocks, unknown);
    HeadScan(None, rows, es);
    OrderHeadings(es, scenes);
    SceneBlocksScan(s1, es, SceneOrder(es, scenes));
    UnknownBlockScan(ScanState(Step, s1, blocks), es);
    SummaryScan(ScanState(Step, None, head + (blocks + unknown)), es);
  }

  /** The entries `generate_report` builds are writable when names are plain and scene descriptions are unambiguous. */
  lemma {:induction false} GeneratedWritable(rows: seq<ResultRow>, scenes: seq<Scene>, analyze: string -> (ChangeType, seq<int>))
    requires forall row :: row in rows && IsVisual(row) ==> PlainName(row.procedure)
    requires forall k :: 0 <= k < |scenes| ==> SceneText(scenes[k].description)
    ensures AllWritable(Entries(Filter(IsVisual, rows), scenes, analyze))
  {
    var visual := Filter(IsVisual, rows);
    var es := Entries(visual, scenes, analyze);
    EntriesOfRows(visual, scenes, analyze);
    forall e | e in es
      ensures Writable(e)
    {
      var j :| 0 <= j < |es| && es[j] == e;
      var row :| row in visual && HasFrame(row) && e == MakeEntry(row, scenes, analyze);
      assert row in rows && IsVisual(row);
    }
  }

  /**
   * `extract_visual_procs` on the file `generate_report` writes: the pending
   * rows are the visual `sub_` procedures with a first frame, grouped by scene
   * in the report's order.
   */
  lemma {:induction false} GeneratedExtraction(rows: seq<ResultRow>, scenes: seq<Scene>, analyze: string -> (ChangeType, seq<int>))
    requires forall row :: row in rows && IsVisual(row) ==> PlainName(row.procedure)
    requires forall k :: 0 <= k < |scenes| ==> SceneText(scenes[k].description)
    ensures var es := Entries(Filter(IsVisual, rows), scenes, analyze);
            ParseAnalysisReport(GenerateReport(rows, scenes, analyze))
            == SectionRows(es, SceneOrder(es, scenes)) + RowsOf(UnknownLabel, SortedUnknown(es))
  {
    GeneratedWritable(rows, scenes, analyze);
    ReportExtraction(rows, Entries(Filter(IsVisual, rows), scenes, analyze), scenes);
  }
}
