/**
 * `split_data_blocks` and `replace_with_binclude` of scripts/split_data.py:
 * runs of `dc` lines that start at a label are gathered into blocks of bytes,
 * and each block kept is then replaced in the source by one `binclude` line
 * and an end label.
 */
module DataBlocks {
  import opened Results
  import opened Bytes
  import opened Text
  import opened DcValues
  import opened DcLines

  // ---------------------------------------------------------------------------
  // Recognising lines
  // ---------------------------------------------------------------------------

  predicate IdentStart(c: char)
  {
    'a' <= c <= 'z' || 'A' <= c <= 'Z' || c == '_'
  }

  predicate IdentChar(c: char)
  {
    IdentStart(c) || IsDigit(c)
  }

  /** The number of identifier characters `s` begins with. */
  function IdentLength(s: string): (n: nat)
    ensures n <= |s|
    ensures forall i :: 0 <= i < n ==> IdentChar(s[i])
    ensures n < |s| ==> !IdentChar(s[n])
  {
    if s != [] && IdentChar(s[0]) then
      var n := 1 + IdentLength(s[1..]);
      assert forall i :: 1 <= i < n ==> s[i] == s[1..][i - 1];
      n
    else 0
  }

  /**
   * `^([a-zA-Z_][a-zA-Z0-9_]*):`: the label a line starts with. Identifier
   * characters are never `:`, so the greedy run is the whole name.
   */
  function LabelOf(line: string): (r: Option<string>)
    ensures r.Some? ==> var n := |r.value|;
      && 1 <= n < |line| && line[..n] == r.value && line[n] == ':'
      && IdentStart(r.value[0]) && forall i :: 0 <= i < n ==> IdentChar(r.value[i])
    ensures r.None? <==> (line == [] || !IdentStart(line[0]) || IdentLength(line) == |line|
                          || line[IdentLength(line)] != ':')
  {
    var n := IdentLength(line);
    if line != [] && IdentStart(line[0]) && n < |line| && line[n] == ':' then Some(line[..n])
    else None
  }

  /** From index `i` on, only whitespace, or whitespace and then a `;`. */
  predicate BlankFrom(line: string, i: nat)
    requires i <= |line|
    decreases |line| - i
  {
    if i == |line| then true
    else if IsSpace(line[i]) then BlankFrom(line, i + 1)
    else line[i] == ';'
  }

  /** An empty or comment-only line: see `BlankIsStripTest`. */
  predicate Blank(line: string)
  {
    BlankFrom(line, 0)
  }

  lemma {:induction false} BlankFromSpaces(line: string, i: nat)
    requires i <= LeadingSpace(line)
    ensures BlankFrom(line, i) <==> LeadingSpace(line) == |line| || line[LeadingSpace(line)] == ';'
    decreases |line| - i
  {
    if i < LeadingSpace(line) {
      BlankFromSpaces(line, i + 1);
    }
  }

  /** `not line.strip() or line.strip().startswith(';')`: an empty or comment-only line. */
  lemma {:induction false} BlankIsStripTest(line: string)
    ensures Blank(line) <==> var t := Strip(line); t == [] || t[0] == ';'
  {
    BlankFromSpaces(line, 0);
    var t := Strip(line);
    var a := LeadingSpace(line);
    if a < |line| {
      assert t == line[a..StripEnd(line)] && t[0] == line[a];
    }
  }

  /** `^\s*dc\.[bwl]\s+` under `re.IGNORECASE` matches at the start of `s`. */
  predicate DcStart(s: string)
  {
    var m := LeadingSpace(s);
    DirectiveAt(s, m) && m + 4 < |s| && IsSpace(s[m + 4])
  }

  /** `line[len(name) + 1:].strip()`: what follows the label and its colon. */
  function LabelRest(line: string, name: string): (rest: string)
    requires |name| < |line|
  {
    Strip(line[|name| + 1..])
  }

  /** The text after a label is a line when the label's line is one. */
  lemma {:induction false} LabelRestIsLine(line: string, name: string)
    requires IsLine(line) && |name| < |line|
    ensures IsLine(LabelRest(line, name))
  {
    SuffixIsLine(line, |name| + 1);
    StripIsLine(line[|name| + 1..]);
  }

  /** What the scan sees in a line. */
  datatype LineKind =
    | BlankLine
      /** A label; `rest` is the stripped text after its colon, `dc` whether that is a `dc` directive. */
    | LabelLine(name: string, rest: string, dc: bool)
      /** Anything else; `dc` whether it is a `dc` directive. */
    | PlainLine(dc: bool)

  /** How `split_data_blocks` sees a line, in the order it tests. */
  function Classify(line: string): (k: LineKind)
    ensures k.BlankLine? <==> Blank(line)
    ensures k.LabelLine? <==> !Blank(line) && LabelOf(line).Some?
    ensures k.LabelLine? ==>
              && LabelOf(line) == Some(k.name) && |k.name| < |line|
              && k.rest == LabelRest(line, k.name)
              && (k.dc <==> k.rest != [] && DcStart(k.rest))
    ensures k.PlainLine? ==> (k.dc <==> DcStart(line))
  {
    if Blank(line) then BlankLine
    else
      match LabelOf(line)
      case Some(name) =>
        var rest := LabelRest(line, name);
        LabelLine(name, rest, rest != [] && DcStart(rest))
      case None => PlainLine(DcStart(line))
  }

  /** How the scan reads lines: their kind, and the values of a `dc` directive. */
  datatype Reader = Reader(kind: string -> LineKind, parse: string -> Parsed)

  /** The reader of split_data: `Classify`, and `parse_dc_line` with its whitespace prefix. */
  function SplitDataReader(): (rd: Reader)
    ensures forall line :: rd.kind(line) == Classify(line)
    ensures forall line :: IsLine(line) ==> rd.parse(line) == ParseDcLine(line, SpacePrefix)
  {
    Reader(line => Classify(line), DcLineParser(SpacePrefix))
  }

  // ---------------------------------------------------------------------------
  // Gathering blocks
  // ---------------------------------------------------------------------------

  /** A run of data: its label, first and last line numbers (from 1) and bytes. */
  datatype Block = Block(name: string, startLine: nat, endLine: nat, data: seq<byte>)

  /** Lines as `readlines()` gives them. */
  predicate AllLines(lines: seq<string>)
  {
    forall k :: 0 <= k < |lines| ==> IsLine(lines[k])
  }

  /** The open block, kept when it holds at least `minSize` bytes. */
  function Keep(cur: Option<Block>, minSize: int): (r: seq<Block>)
    ensures |r| <= 1
    ensures r != [] <==> cur.Some? && |cur.value.data| >= minSize
    ensures r != [] ==> r[0] == cur.value
  {
    if cur.Some? && |cur.value.data| >= minSize then [cur.value] else []
  }

  /** The scan's state between lines: the open block and the blocks kept so far. */
  datatype State = State(cur: Option<Block>, found: seq<Block>)

  /**
   * One turn of the loop, on line `line` numbered `num`: the next state, or
   * the error a value raised.
   */
  function Step(line: string, num: nat, st: State, minSize: int, rd: Reader): (r: Result<State, DcError>)
  {
    var kept := st.found + Keep(st.cur, minSize);
    match rd.kind(line)
    case BlankLine => Ok(st)
    case LabelLine(name, rest, dc) =>
      if dc then
        match rd.parse(rest)
        case Err(e) => Err(e)
        case Ok(None) => Ok(State(None, kept))
        case Ok(Some(data)) => Ok(State(Some(Block(name, num, num, data)), kept))
      else Ok(State(None, kept))
    case PlainLine(dc) =>
      if st.cur.Some? && dc then
        match rd.parse(line)
        case Err(e) => Err(e)
        case Ok(None) => Ok(State(None, kept))
        case Ok(Some(data)) =>
          var b := st.cur.value;
          Ok(State(Some(b.(endLine := num, data := b.data + data)), st.found))
      else Ok(State(None, kept))
  }

  /** The loop from line index `n` on, then the last block kept if it is large enough. */
  function Scan(lines: seq<string>, n: nat, st: State, minSize: int, rd: Reader): (r: Result<seq<Block>, DcError>)
    requires n <= |lines|
    decreases |lines| - n
  {
    if n == |lines| then Ok(st.found + Keep(st.cur, minSize))
    else
      match Step(lines[n], n + 1, st, minSize, rd)
      case Err(e) => Err(e)
      case Ok(next) => Scan(lines, n + 1, next, minSize, rd)
  }

  /** `split_data_blocks(lines, min_size)`. */
  function SplitDataBlocks(lines: seq<string>, minSize: int): (r: Result<seq<Block>, DcError>)
    requires AllLines(lines)
  {
    Scan(lines, 0, State(None, []), minSize, SplitDataReader())
  }

  // ---------------------------------------------------------------------------
  // What a block holds
  // ---------------------------------------------------------------------------

  /** The bytes of a parse that gave some, otherwise none. */
  function Found(p: Parsed): seq<byte>
  {
    if IsData(p) then p.value.value else []
  }

  /** The bytes a line inside a block adds: none for blank and comment lines. */
  function LineBytes(line: string, rd: Reader): seq<byte>
  {
    if rd.kind(line).BlankLine? then [] else Found(rd.parse(line))
  }

  /** The bytes of lines `i` to `j - 1`, in order. */
  function Span(lines: seq<string>, i: nat, j: nat, rd: Reader): seq<byte>
    requires i <= j <= |lines|
    decreases j - i
  {
    if i == j then [] else Span(lines, i, j - 1, rd) + LineBytes(lines[j - 1], rd)
  }

  /** A line that lets an open block go on: blank, or an unlabelled `dc` line with data. */
  predicate Continues(line: string, rd: Reader)
  {
    rd.kind(line).BlankLine? || (rd.kind(line) == PlainLine(true) && IsData(rd.parse(line)))
  }

  /**
   * A block as the scan builds it: it starts at a line with its label whose
   * remainder is a `dc` directive with data, every later line up to its last continues
   * it, its last line is a data line, and its bytes are those of the label
   * line's directive followed by those of the later lines.
   */
  predicate Gathered(lines: seq<string>, b: Block, rd: Reader)
  {
    GatheredFrom(lines, b.name, b.startLine, b.endLine, b.data, rd)
  }

  /** `Gathered` for the block with these fields. */
  predicate GatheredFrom(lines: seq<string>, name: string, start: nat, end: nat, data: seq<byte>, rd: Reader)
  {
    && 1 <= start <= end <= |lines|
    && Opens(rd.kind(lines[start - 1]), name)
    && IsData(rd.parse(rd.kind(lines[start - 1]).rest))
    && data == Found(rd.parse(rd.kind(lines[start - 1]).rest)) + Span(lines, start, end, rd)
    && (forall k :: start <= k < end ==> Continues(lines[k], rd))
    && (end > start ==> !rd.kind(lines[end - 1]).BlankLine?)
  }

  /** A line with the label `name` whose remainder is a `dc` directive. */
  predicate Opens(k: LineKind, name: string)
  {
    k.LabelLine? && k.name == name && k.dc
  }

  /** Blocks in source order whose line ranges do not overlap. */
  predicate Ordered(blocks: seq<Block>)
  {
    forall i, j :: 0 <= i < j < |blocks| ==> blocks[i].endLine < blocks[j].startLine
  }

  /** Blocks fit the lines, in order, each from its first line to its last. */
  predicate WellPlaced(blocks: seq<Block>, count: nat)
  {
    && (forall k :: 0 <= k < |blocks| ==> 1 <= blocks[k].startLine <= blocks[k].endLine <= count)
    && Ordered(blocks)
  }

  /** The kept blocks are gathered and large enough. */
  predicate AllGathered(lines: seq<string>, found: seq<Block>, minSize: int, rd: Reader)
  {
    forall k :: 0 <= k < |found| ==> Gathered(lines, found[k], rd) && |found[k].data| >= minSize
  }

  /** What holds of the state before line index `n`. */
  predicate ScanState(lines: seq<string>, n: nat, st: State, minSize: int, rd: Reader)
  {
    && n <= |lines|
    && AllGathered(lines, st.found, minSize, rd)
    && (forall k :: 0 <= k < |st.found| ==> st.found[k].endLine <= n)
    && Ordered(st.found)
    && (st.cur.Some? ==> OpenBlock(lines, n, st.cur.value, st.found, rd))
  }

  /** The open block: gathered so far, with only blank lines after its last line. */
  predicate OpenBlock(lines: seq<string>, n: nat, b: Block, found: seq<Block>, rd: Reader)
  {
    && Gathered(lines, b, rd)
    && b.endLine <= n <= |lines|
    && (forall k :: b.endLine <= k < n ==> rd.kind(lines[k]).BlankLine?)
    && (forall k :: 0 <= k < |found| ==> found[k].endLine < b.startLine)
  }

  /** Each turn of the loop keeps the state's facts. */
  lemma {:induction false} StepKeeps(lines: seq<string>, n: nat, st: State, minSize: int, rd: Reader)
    requires n < |lines|
    requires ScanState(lines, n, st, minSize, rd)
    ensures var r := Step(lines[n], n + 1, st, minSize, rd);
            r.Ok? ==> ScanState(lines, n + 1, r.value, minSize, rd)
  {
    var line := lines[n];
    var closed := State(None, st.found + Keep(st.cur, minSize));
    match rd.kind(line)
    case BlankLine =>
      BlankKeeps(lines, n, st, minSize, rd);
    case LabelLine(name, rest, dc) =>
      CloseKeeps(lines, n, st, minSize, rd);
      if dc {
        match rd.parse(rest)
        case Err(e) =>
        case Ok(None) =>
          LaterState(lines, n, closed, minSize, rd);
        case Ok(Some(data)) =>
          OpenState(lines, n, name, data, closed.found, minSize, rd);
      } else {
        LaterState(lines, n, closed, minSize, rd);
      }
    case PlainLine(dc) =>
      CloseKeeps(lines, n, st, minSize, rd);
      if st.cur.Some? && dc {
        match rd.parse(line)
        case Err(e) =>
        case Ok(None) =>
          LaterState(lines, n, closed, minSize, rd);
        case Ok(Some(data)) =>
          ExtendState(lines, n, st.cur.value, data, st.found, minSize, rd);
      } else {
        LaterState(lines, n, closed, minSize, rd);
      }
  }

  /** The scan's result, when it has one, is made of gathered blocks in order. */
  lemma {:induction false} ScanGathers(lines: seq<string>, n: nat, st: State, minSize: int, rd: Reader)
    requires ScanState(lines, n, st, minSize, rd)
    ensures var r := Scan(lines, n, st, minSize, rd);
            r.Ok? ==> ScanState(lines, |lines|, State(None, r.value), minSize, rd)
    decreases |lines| - n
  {
    if n == |lines| {
      CloseKeeps(lines, n, st, minSize, rd);
    } else {
      StepKeeps(lines, n, st, minSize, rd);
      match Step(lines[n], n + 1, st, minSize, rd)
      case Err(e) =>
      case Ok(next) => ScanGathers(lines, n + 1, next, minSize, rd);
    }
  }

  /** Closing the open block keeps the state's facts, with no block open. */
  lemma {:induction false} CloseKeeps(lines: seq<string>, n: nat, st: State, minSize: int, rd: Reader)
    requires ScanState(lines, n, st, minSize, rd)
    ensures ScanState(lines, n, State(None, st.found + Keep(st.cur, minSize)), minSize, rd)
  {
    var found := st.found;
    var kept := found + Keep(st.cur, minSize);
    if st.cur.Some? && |st.cur.value.data| >= minSize {
      var b := st.cur.value;
      assert kept == found + [b];
      forall k | 0 <= k < |kept|
        ensures Gathered(lines, kept[k], rd) && |kept[k].data| >= minSize && kept[k].endLine <= n
      {
        if k < |found| {
          assert kept[k] == found[k];
        } else {
          assert kept[k] == b;
        }
      }
      forall i, j | 0 <= i < j < |kept|
        ensures kept[i].endLine < kept[j].startLine
      {
        assert kept[i] == found[i];
        if j < |found| {
          assert kept[j] == found[j];
        } else {
          assert kept[j] == b;
        }
      }
    } else {
      assert kept == found + [];
      assert kept == found;
    }
  }

  /** A state with no open block at `n` holds at `n + 1` too. */
  lemma {:induction false} LaterState(lines: seq<string>, n: nat, st: State, minSize: int, rd: Reader)
    requires n < |lines| && st.cur.None?
    requires ScanState(lines, n, st, minSize, rd)
    ensures ScanState(lines, n + 1, st, minSize, rd)
  {
  }

  /** A blank line changes nothing but the position. */
  lemma {:induction false} BlankKeeps(lines: seq<string>, n: nat, st: State, minSize: int, rd: Reader)
    requires n < |lines| && rd.kind(lines[n]).BlankLine?
    requires ScanState(lines, n, st, minSize, rd)
    ensures ScanState(lines, n + 1, st, minSize, rd)
  {
    if st.cur.Some? {
      var b := st.cur.value;
      assert forall k :: b.endLine <= k < n + 1 ==> rd.kind(lines[k]).BlankLine?;
    }
  }

  /** A block opened at a label line with data is gathered. */
  lemma {:induction false} OpenState(lines: seq<string>, n: nat, name: string, data: seq<byte>, found: seq<Block>, minSize: int,
                  rd: Reader)
    requires n < |lines|
    requires Opens(rd.kind(lines[n]), name) && rd.parse(rd.kind(lines[n]).rest) == Ok(Some(data))
    requires ScanState(lines, n, State(None, found), minSize, rd)
    ensures ScanState(lines, n + 1, State(Some(Block(name, n + 1, n + 1, data)), found), minSize, rd)
  {
    var b := Block(name, n + 1, n + 1, data);
    assert Span(lines, n + 1, n + 1, rd) == [];
    assert data + [] == data;
    assert Gathered(lines, b, rd);
    assert OpenBlock(lines, n + 1, b, found, rd);
  }

  /** A `dc` line with data extends the open block to it. */
  lemma {:induction false} ExtendState(lines: seq<string>, n: nat, b: Block, data: seq<byte>, found: seq<Block>, minSize: int,
                    rd: Reader)
    requires n < |lines|
    requires rd.kind(lines[n]) == PlainLine(true) && rd.parse(lines[n]) == Ok(Some(data))
    requires ScanState(lines, n, State(Some(b), found), minSize, rd)
    ensures ScanState(lines, n + 1, State(Some(b.(endLine := n + 1, data := b.data + data)), found), minSize, rd)
  {
    var b' := b.(endLine := n + 1, data := b.data + data);
    ExtendGathers(lines, n, b, data, rd);
    assert OpenBlock(lines, n + 1, b', found, rd);
  }

  /** Extending a gathered block over blank lines and one more data line keeps it gathered. */
  lemma {:induction false} ExtendGathers(lines: seq<string>, n: nat, b: Block, data: seq<byte>, rd: Reader)
    requires n < |lines|
    requires rd.kind(lines[n]) == PlainLine(true) && rd.parse(lines[n]) == Ok(Some(data))
    requires Gathered(lines, b, rd) && b.endLine <= n
    requires forall k :: b.endLine <= k < n ==> rd.kind(lines[k]).BlankLine?
    ensures Gathered(lines, b.(endLine := n + 1, data := b.data + data), rd)
  {
    ExtendFrom(lines, b.name, b.startLine, b.endLine, b.data, n, data, rd);
    Regathered(lines, b, n + 1, b.data + data, rd);
  }

  /** `GatheredFrom` with a block's name and first line is `Gathered` for the block with that end and data. */
  lemma {:induction false} Regathered(lines: seq<string>, b: Block, end: nat, data: seq<byte>, rd: Reader)
    requires GatheredFrom(lines, b.name, b.startLine, end, data, rd)
    ensures Gathered(lines, b.(endLine := end, data := data), rd)
  {
    var b' := b.(endLine := end, data := data);
    assert b'.name == b.name && b'.startLine == b.startLine && b'.endLine == end && b'.data == data;
  }

  /** `ExtendGathers` on the fields of the block. */
  lemma {:induction false} ExtendFrom(lines: seq<string>, name: string, start: nat, end: nat, bytes: seq<byte>,
                   n: nat, data: seq<byte>, rd: Reader)
    requires n < |lines|
    requires rd.kind(lines[n]) == PlainLine(true) && rd.parse(lines[n]) == Ok(Some(data))
    requires GatheredFrom(lines, name, start, end, bytes, rd) && end <= n
    requires forall k :: end <= k < n ==> rd.kind(lines[k]).BlankLine?
    ensures GatheredFrom(lines, name, start, n + 1, bytes + data, rd)
  {
    var head := Found(rd.parse(rd.kind(lines[start - 1]).rest));
    SpanOverBlanks(lines, start, end, n, rd);
    assert LineBytes(lines[n], rd) == data;
    ConcatAssoc(head, Span(lines, start, end, rd), data);
  }

  /** Blank lines add no bytes. */
  lemma {:induction false} SpanOverBlanks(lines: seq<string>, i: nat, j: nat, n: nat, rd: Reader)
    requires i <= j <= n <= |lines|
    requires forall k :: j <= k < n ==> rd.kind(lines[k]).BlankLine?
    ensures Span(lines, i, n, rd) == Span(lines, i, j, rd)
    decreases n - j
  {
    if n > j {
      SpanOverBlanks(lines, i, j, n - 1, rd);
      var before := Span(lines, i, n - 1, rd);
      assert LineBytes(lines[n - 1], rd) == [];
      assert Span(lines, i, n, rd) == before + [];
      assert before + [] == before;
    }
  }

  /**
   * Every block `split_data_blocks` returns starts at its label line, holds
   * the bytes of its lines in order and at least `min_size` of them, and the
   * blocks come in source order without overlapping.
   */
  lemma {:induction false} SplitDataBlocksGathers(lines: seq<string>, minSize: int)
    requires AllLines(lines)
    ensures var r := SplitDataBlocks(lines, minSize);
            r.Ok? ==>
              && WellPlaced(r.value, |lines|)
              && AllGathered(lines, r.value, minSize, SplitDataReader())
  {
    ScanGathers(lines, 0, State(None, []), minSize, SplitDataReader());
  }

  /**
   * `rd` reads lines as split_data does. The triggers keep the agreement from
   * being unfolded until a proof names `Classify` or `ParseDcLine` itself.
   */
  ghost predicate ReadsAsSplitData(rd: Reader)
  {
    && (forall line {:trigger Classify(line)} :: rd.kind(line) == Classify(line))
    && (forall line {:trigger ParseDcLine(line, SpacePrefix)} :: IsLine(line) ==> rd.parse(line) == ParseDcLine(line, SpacePrefix))
  }

  lemma {:induction false} SplitDataReaderReads()
    ensures ReadsAsSplitData(SplitDataReader())
  {
  }

  /**
   * What the scan's blocks are, in terms of the lines: each starts at a line
   * with its label and a `dc` directive, its bytes start with that
   * directive's, each later line is blank or an unlabelled `dc` line with
   * data, and it holds at least `min_size` bytes.
   */
  lemma {:induction false} SplitDataBlocksLines(lines: seq<string>, minSize: int)
    requires AllLines(lines)
    ensures var r := SplitDataBlocks(lines, minSize);
            r.Ok? ==> forall k :: 0 <= k < |r.value| ==> BlockLines(lines, r.value[k], minSize)
  {
    var rd := SplitDataReader();
    SplitDataBlocksGathers(lines, minSize);
    SplitDataReaderReads();
    var r := SplitDataBlocks(lines, minSize);
    if r.Ok? {
      forall k | 0 <= k < |r.value|
        ensures BlockLines(lines, r.value[k], minSize)
      {
        GatheredLines(lines, r.value[k], minSize, rd);
      }
    }
  }

  /** A block as `BlockLines` in `SplitDataBlocksLines` describes it. */
  predicate BlockLines(lines: seq<string>, b: Block, minSize: int)
    requires AllLines(lines)
  {
    && 1 <= b.startLine <= b.endLine <= |lines|
    && OpensBlock(lines[b.startLine - 1], b.name, b.data)
    && LinesContinue(lines, b.startLine, b.endLine)
    && |b.data| >= minSize
  }

  /** A gathered block read as split_data reads lines is described by `BlockLines`. */
  lemma {:induction false} GatheredLines(lines: seq<string>, b: Block, minSize: int, rd: Reader)
    requires AllLines(lines) && ReadsAsSplitData(rd)
    requires Gathered(lines, b, rd) && |b.data| >= minSize
    ensures BlockLines(lines, b, minSize)
  {
    var line := lines[b.startLine - 1];
    HeadLine(line, b.name, b.data, Span(lines, b.startLine, b.endLine, rd), rd);
    LaterLines(lines, b.startLine, b.endLine, rd);
  }

  lemma {:induction false} LaterLines(lines: seq<string>, i: nat, j: nat, rd: Reader)
    requires AllLines(lines) && i <= j <= |lines| && ReadsAsSplitData(rd)
    requires forall k :: i <= k < j ==> Continues(lines[k], rd)
    ensures LinesContinue(lines, i, j)
  {
    forall k | i <= k < j
      ensures ContinuesBlock(lines[k])
    {
      LaterLine(lines[k], rd);
    }
  }

  /** A line with label `name` and a `dc` directive after it whose bytes begin `data`. */
  predicate OpensBlock(line: string, name: string, data: seq<byte>)
  {
    && LabelOf(line) == Some(name) && |name| < |line|
    && var rest := LabelRest(line, name);
       && rest != [] && DcStart(rest) && IsLine(rest)
       && var head := Found(ParseDcLine(rest, SpacePrefix));
          |head| <= |data| && data[..|head|] == head
  }

  /** Lines `i` to `j - 1` are each blank or an unlabelled `dc` line with data. */
  predicate LinesContinue(lines: seq<string>, i: nat, j: nat)
    requires AllLines(lines) && i <= j <= |lines|
  {
    forall k :: i <= k < j ==> ContinuesBlock(lines[k])
  }

  /** A blank or comment line, or an unlabelled `dc` line with data. */
  predicate ContinuesBlock(line: string)
    requires IsLine(line)
  {
    Blank(line) || (LabelOf(line).None? && DcStart(line) && IsData(ParseDcLine(line, SpacePrefix)))
  }

  lemma {:induction false} HeadLine(line: string, name: string, data: seq<byte>, tail: seq<byte>, rd: Reader)
    requires IsLine(line) && ReadsAsSplitData(rd)
    requires Opens(rd.kind(line), name)
    requires data == Found(rd.parse(rd.kind(line).rest)) + tail
    ensures OpensBlock(line, name, data)
  {
    var k := rd.kind(line);
    assert k == Classify(line);
    LabelRestIsLine(line, name);
    assert rd.parse(k.rest) == ParseDcLine(k.rest, SpacePrefix);
    var head := Found(rd.parse(k.rest));
    assert data[..|head|] == head;
  }

  lemma {:induction false} LaterLine(line: string, rd: Reader)
    requires IsLine(line) && ReadsAsSplitData(rd) && Continues(line, rd)
    ensures ContinuesBlock(line)
  {
    assert rd.kind(line) == Classify(line);
    assert rd.parse(line) == ParseDcLine(line, SpacePrefix);
  }

  // ---------------------------------------------------------------------------
  // Which blocks the scan keeps
  // ---------------------------------------------------------------------------

  /** Lines `i` to `j - 1` are all blank or comments. */
  predicate BlankBetween(lines: seq<string>, i: nat, j: nat, rd: Reader)
    requires i <= j <= |lines|
  {
    forall k :: i <= k < j ==> rd.kind(lines[k]).BlankLine?
  }

  /** Line index `n` ends a run: the input ends there, or the line is neither blank nor continues a block. */
  predicate Stops(lines: seq<string>, n: nat, rd: Reader)
    requires n <= |lines|
  {
    n == |lines| || (!rd.kind(lines[n]).BlankLine? && !Continues(lines[n], rd))
  }

  /**
   * A block that cannot be extended: the first line after its last that is
   * not blank, if there is one, does not continue it.
   */
  predicate Maximal(lines: seq<string>, b: Block, rd: Reader)
  {
    && b.endLine <= |lines|
    && forall m :: b.endLine <= m < |lines| && !rd.kind(lines[m]).BlankLine? && BlankBetween(lines, b.endLine, m, rd)
                   ==> !Continues(lines[m], rd)
  }

  /** A block the scan keeps: gathered, not extensible, and at least `minSize` bytes. */
  predicate Qualifies(lines: seq<string>, b: Block, minSize: int, rd: Reader)
  {
    Gathered(lines, b, rd) && Maximal(lines, b, rd) && |b.data| >= minSize
  }

  /** Every kept block cannot be extended. */
  predicate AllMaximal(lines: seq<string>, found: seq<Block>, rd: Reader)
  {
    forall k :: 0 <= k < |found| ==> Maximal(lines, found[k], rd)
  }

  /** A block followed by blank lines and then a line that stops it cannot be extended. */
  lemma {:induction false} StopMaximal(lines: seq<string>, b: Block, n: nat, rd: Reader)
    requires b.endLine <= n <= |lines| && BlankBetween(lines, b.endLine, n, rd) && Stops(lines, n, rd)
    ensures Maximal(lines, b, rd)
  {
    forall m | b.endLine <= m < |lines| && !rd.kind(lines[m]).BlankLine? && BlankBetween(lines, b.endLine, m, rd)
      ensures !Continues(lines[m], rd)
    {
      assert n <= m;
      assert m <= n;
    }
  }

  /** A turn of the loop keeps the blocks it had, or adds the open one at a line that stops it. */
  lemma {:induction false} StepCloses(lines: seq<string>, n: nat, st: State, minSize: int, rd: Reader)
    requires n < |lines|
    ensures var r := Step(lines[n], n + 1, st, minSize, rd);
            r.Ok? ==> r.value.found == st.found
                      || (Stops(lines, n, rd) && r.value.found == st.found + Keep(st.cur, minSize))
  {
    var line := lines[n];
    match rd.kind(line)
    case BlankLine =>
    case LabelLine(name, rest, dc) =>
    case PlainLine(dc) =>
      if st.cur.Some? && dc {
        match rd.parse(line)
        case Err(e) =>
        case Ok(None) =>
        case Ok(Some(data)) =>
      }
  }

  /** Closing the open block at a line that stops it keeps every block unextensible. */
  lemma {:induction false} CloseMaximal(lines: seq<string>, n: nat, st: State, minSize: int, rd: Reader)
    requires ScanState(lines, n, st, minSize, rd) && AllMaximal(lines, st.found, rd) && Stops(lines, n, rd)
    ensures AllMaximal(lines, st.found + Keep(st.cur, minSize), rd)
  {
    var kept := st.found + Keep(st.cur, minSize);
    if st.cur.Some? {
      var b := st.cur.value;
      assert BlankBetween(lines, b.endLine, n, rd);
      StopMaximal(lines, b, n, rd);
    }
    forall k | 0 <= k < |kept|
      ensures Maximal(lines, kept[k], rd)
    {
      if k < |st.found| {
        assert kept[k] == st.found[k];
      } else {
        assert kept[k] == st.cur.value;
      }
    }
  }

  /** Each turn of the loop keeps every kept block unextensible. */
  lemma {:induction false} StepMaximal(lines: seq<string>, n: nat, st: State, minSize: int, rd: Reader)
    requires n < |lines| && ScanState(lines, n, st, minSize, rd) && AllMaximal(lines, st.found, rd)
    ensures var r := Step(lines[n], n + 1, st, minSize, rd);
            r.Ok? ==> AllMaximal(lines, r.value.found, rd)
  {
    StepCloses(lines, n, st, minSize, rd);
    var r := Step(lines[n], n + 1, st, minSize, rd);
    if r.Ok? && r.value.found != st.found {
      CloseMaximal(lines, n, st, minSize, rd);
    }
  }

  /** The scan's result, when it has one, holds only blocks that cannot be extended. */
  lemma {:induction false} ScanMaximal(lines: seq<string>, n: nat, st: State, minSize: int, rd: Reader)
    requires ScanState(lines, n, st, minSize, rd) && AllMaximal(lines, st.found, rd)
    ensures var r := Scan(lines, n, st, minSize, rd);
            r.Ok? ==> AllMaximal(lines, r.value, rd)
    decreases |lines| - n
  {
    if n == |lines| {
      CloseMaximal(lines, n, st, minSize, rd);
    } else {
      StepKeeps(lines, n, st, minSize, rd);
      StepMaximal(lines, n, st, minSize, rd);
      match Step(lines[n], n + 1, st, minSize, rd)
      case Err(e) =>
      case Ok(next) => ScanMaximal(lines, n + 1, next, minSize, rd);
    }
  }

  /** The bytes of the directive on the label line that opens `b`. */
  function Head(lines: seq<string>, b: Block, rd: Reader): seq<byte>
    requires 1 <= b.startLine <= |lines|
  {
    var k := rd.kind(lines[b.startLine - 1]);
    if k.LabelLine? then Found(rd.parse(k.rest)) else []
  }

  /** The last line number up to `j` of a line after index `start` that is not blank, or `start`. */
  function LastData(lines: seq<string>, start: nat, j: nat, rd: Reader): nat
    requires start <= j <= |lines|
    decreases j - start
  {
    if j == start then start
    else if !rd.kind(lines[j - 1]).BlankLine? then j
    else LastData(lines, start, j - 1, rd)
  }

  /** Line index `n` comes before the label line of `b`. */
  predicate Before(n: nat, b: Block)
  {
    n < b.startLine
  }

  /** The scan, before line index `n`, holds the part of `b` up to there as its open block. */
  predicate Inside(lines: seq<string>, n: nat, st: State, b: Block, rd: Reader)
  {
    && 1 <= b.startLine <= n <= b.endLine <= |lines|
    && st.cur == Some(Block(b.name, b.startLine, LastData(lines, b.startLine, n, rd),
                            Head(lines, b, rd) + Span(lines, b.startLine, n, rd)))
  }

  /** The scan, before line index `n`, holds all of `b` open, with only blank lines since. */
  predicate After(lines: seq<string>, n: nat, st: State, b: Block, rd: Reader)
  {
    && b.endLine <= n <= |lines|
    && st.cur == Some(b)
    && BlankBetween(lines, b.endLine, n, rd)
  }

  /** How far the scan has come with `b` before line index `n`. */
  predicate Tracks(lines: seq<string>, n: nat, st: State, b: Block, rd: Reader)
  {
    Before(n, b) || Inside(lines, n, st, b, rd) || After(lines, n, st, b, rd) || b in st.found
  }

  /** A turn of the loop loses no kept block. */
  lemma {:induction false} StepFound(line: string, num: nat, st: State, minSize: int, rd: Reader, b: Block)
    requires b in st.found
    ensures var r := Step(line, num, st, minSize, rd);
            r.Ok? ==> b in r.value.found
  {
    var kept := st.found + Keep(st.cur, minSize);
    assert b in kept;
  }

  /** At the label line of `b` the scan opens it, whatever it held. */
  lemma {:induction false} BeforeStep(lines: seq<string>, n: nat, st: State, minSize: int, rd: Reader, b: Block)
    requires n < |lines| && Gathered(lines, b, rd) && Before(n, b)
    ensures var r := Step(lines[n], n + 1, st, minSize, rd);
            r.Ok? ==> Before(n + 1, b) || Inside(lines, n + 1, r.value, b, rd)
  {
    if n + 1 == b.startLine {
      var k := rd.kind(lines[n]);
      var head := Head(lines, b, rd);
      assert rd.parse(k.rest) == Ok(Some(head));
      assert Span(lines, n + 1, n + 1, rd) == [];
      assert head + [] == head;
    }
  }

  /** Inside `b`, each line continues it, so the scan goes on holding its part up to there. */
  lemma {:induction false} InsideStep(lines: seq<string>, n: nat, st: State, minSize: int, rd: Reader, b: Block)
    requires n < b.endLine && Gathered(lines, b, rd) && Inside(lines, n, st, b, rd)
    ensures var r := Step(lines[n], n + 1, st, minSize, rd);
            r.Ok? && Inside(lines, n + 1, r.value, b, rd)
  {
    var head := Head(lines, b, rd);
    var start := b.startLine;
    var before := Span(lines, start, n, rd);
    assert Continues(lines[n], rd);
    assert Span(lines, start, n + 1, rd) == before + LineBytes(lines[n], rd);
    if rd.kind(lines[n]).BlankLine? {
      assert LastData(lines, start, n + 1, rd) == LastData(lines, start, n, rd);
      assert before + [] == before;
    } else {
      var data := rd.parse(lines[n]).value.value;
      assert LineBytes(lines[n], rd) == data;
      ConcatAssoc(head, before, data);
    }
  }

  /** At the last line of `b` the scan holds all of it. */
  lemma {:induction false} InsideAtEnd(lines: seq<string>, n: nat, st: State, b: Block, rd: Reader)
    requires n == b.endLine && Gathered(lines, b, rd) && Inside(lines, n, st, b, rd)
    ensures After(lines, n, st, b, rd)
  {
    assert LastData(lines, b.startLine, n, rd) == n;
  }

  /**
   * After `b`, blank lines leave it open, and the next line, which cannot
   * continue it, closes it into the kept blocks.
   */
  lemma {:induction false} AfterStep(lines: seq<string>, n: nat, st: State, minSize: int, rd: Reader, b: Block)
    requires n < |lines| && Qualifies(lines, b, minSize, rd) && After(lines, n, st, b, rd)
    ensures var r := Step(lines[n], n + 1, st, minSize, rd);
            r.Ok? ==> After(lines, n + 1, r.value, b, rd) || b in r.value.found
  {
    if rd.kind(lines[n]).BlankLine? {
      assert BlankBetween(lines, b.endLine, n + 1, rd);
    } else {
      assert !Continues(lines[n], rd);
      StepCloses(lines, n, st, minSize, rd);
      assert Keep(st.cur, minSize) == [b];
      assert b in st.found + [b];
    }
  }

  /** Each turn of the loop keeps track of `b`. */
  lemma {:induction false} TrackStep(lines: seq<string>, n: nat, st: State, minSize: int, rd: Reader, b: Block)
    requires n < |lines| && Qualifies(lines, b, minSize, rd) && Tracks(lines, n, st, b, rd)
    ensures var r := Step(lines[n], n + 1, st, minSize, rd);
            r.Ok? ==> Tracks(lines, n + 1, r.value, b, rd)
  {
    if b in st.found {
      StepFound(lines[n], n + 1, st, minSize, rd, b);
    } else if Before(n, b) {
      BeforeStep(lines, n, st, minSize, rd, b);
    } else if Inside(lines, n, st, b, rd) && n < b.endLine {
      InsideStep(lines, n, st, minSize, rd, b);
    } else {
      if Inside(lines, n, st, b, rd) {
        InsideAtEnd(lines, n, st, b, rd);
      }
      AfterStep(lines, n, st, minSize, rd, b);
    }
  }

  /** A block the scan keeps track of to the end of the input is in its result. */
  lemma {:induction false} ScanFinds(lines: seq<string>, n: nat, st: State, minSize: int, rd: Reader, b: Block)
    requires n <= |lines| && Qualifies(lines, b, minSize, rd) && Tracks(lines, n, st, b, rd)
    ensures var r := Scan(lines, n, st, minSize, rd);
            r.Ok? ==> b in r.value
    decreases |lines| - n
  {
    if n == |lines| {
      if Inside(lines, n, st, b, rd) {
        InsideAtEnd(lines, n, st, b, rd);
      }
      if st.cur == Some(b) {
        assert Keep(st.cur, minSize) == [b];
      }
      assert b in st.found ==> b in st.found + Keep(st.cur, minSize);
    } else {
      TrackStep(lines, n, st, minSize, rd, b);
      match Step(lines[n], n + 1, st, minSize, rd)
      case Err(e) =>
      case Ok(next) => ScanFinds(lines, n + 1, next, minSize, rd, b);
    }
  }

  /**
   * No block `split_data_blocks` returns could have been extended: after its
   * last line, the first line that is not blank or a comment, if any, is not
   * an unlabelled `dc` line with data.
   */
  lemma {:induction false} SplitDataBlocksMaximal(lines: seq<string>, minSize: int)
    requires AllLines(lines)
    ensures var r := SplitDataBlocks(lines, minSize);
            r.Ok? ==> AllMaximal(lines, r.value, SplitDataReader())
  {
    ScanMaximal(lines, 0, State(None, []), minSize, SplitDataReader());
  }

  /**
   * Every run of data lines that starts at a label line with data, cannot be
   * extended and holds at least `min_size` bytes is among the blocks
   * `split_data_blocks` returns.
   */
  lemma {:induction false} SplitDataBlocksComplete(lines: seq<string>, minSize: int, b: Block)
    requires AllLines(lines) && Qualifies(lines, b, minSize, SplitDataReader())
    ensures var r := SplitDataBlocks(lines, minSize);
            r.Ok? ==> b in r.value
  {
    ScanFinds(lines, 0, State(None, []), minSize, SplitDataReader(), b);
  }

  /** The blocks `split_data_blocks` returns are exactly the qualifying runs of the input. */
  lemma {:induction false} SplitDataBlocksExact(lines: seq<string>, minSize: int)
    requires AllLines(lines)
    ensures var r := SplitDataBlocks(lines, minSize);
            r.Ok? ==> forall b :: b in r.value <==> Qualifies(lines, b, minSize, SplitDataReader())
  {
    var rd := SplitDataReader();
    var r := SplitDataBlocks(lines, minSize);
    SplitDataBlocksGathers(lines, minSize);
    SplitDataBlocksMaximal(lines, minSize);
    if r.Ok? {
      forall b
        ensures b in r.value <==> Qualifies(lines, b, minSize, rd)
      {
        if Qualifies(lines, b, minSize, rd) {
          SplitDataBlocksComplete(lines, minSize, b);
        }
      }
    }
  }
}
