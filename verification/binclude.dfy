/**
 * `replace_with_binclude` of scripts/split_data.py: each kept block's lines
 * are replaced by one list element holding a `binclude` directive for the
 * block's binary file and an end label, while an offset keeps the 1-based
 * line numbers of later blocks pointing at the right elements.
 */
module Binclude {
  import opened Results
  import opened Text
  import opened DataBlocks

  /** `data_{label}.bin`, the file name `save_binary_files` gives a block. */
  function FileName(name: string): string
  {
    "data_" + name + ".bin"
  }

  /** What `(.*)` captures: the text before the first newline. */
  function UpToNewline(s: string): (r: string)
    ensures '\n' !in r
    ensures |r| <= |s| && s[..|r|] == r
    ensures |r| < |s| ==> s[|r|] == '\n'
  {
    s[..IndexOfChar(s, '\n')]
  }

  /**
   * `rest[rest.index(';'):].rstrip()` when `';' in rest`, else empty: the
   * comment carried over from the label line.
   */
  function Comment(rest: string): (c: string)
    ensures ';' !in rest <==> c == []
    ensures c != [] ==> var i := IndexOfChar(rest, ';');
      && i + |c| <= |rest| && c == rest[i..i + |c|] && !IsSpace(c[|c| - 1])
      && forall j :: i + |c| <= j < |rest| ==> IsSpace(rest[j])
  {
    var i := IndexOfChar(rest, ';');
    if i == |rest| then []
    else
      var c := RStrip(rest[i..]);
      assert rest[i..][0] == ';' && !IsSpace(';');
      c
  }

  /** A run of identifier characters stopped by another character is the identifier prefix. */
  lemma {:induction false} IdentLengthIs(s: string, n: nat)
    requires n < |s| && !IdentChar(s[n])
    requires forall i :: 0 <= i < n ==> IdentChar(s[i])
    ensures IdentLength(s) == n
    decreases n
  {
    if n > 0 {
      assert forall i :: 0 <= i < n - 1 ==> s[1..][i] == s[i + 1];
      IdentLengthIs(s[1..], n - 1);
    }
  }

  /** The element that replaces block `b`, whose first line is `line`; `None` when `line` does not start with a label. */
  function Replacement(line: string, b: Block, dir: string): (r: Option<string>)
    ensures r.None? <==> LabelOf(line).None?
    ensures r.Some? ==> LabelOf(r.value) == LabelOf(line)
    ensures r.Some? ==> EndsWith(r.value, "\n" + b.name + "_End:\n")
  {
    match LabelOf(line)
    case None => None
    case Some(name) =>
      var comment := Comment(UpToNewline(line[|name| + 1..]));
      var directive := "\tbinclude\t\"" + dir + "/" + FileName(b.name) + "\"\t" + comment;
      var tail := b.name + "_End:\n";
      LabelledLine(name, directive, tail);
      Some(name + ":" + directive + "\n" + tail)
  }

  /** A label, a colon and anything after it is read back as that label, and ends with what was put last. */
  lemma {:induction false} LabelledLine(name: string, mid: string, tail: string)
    requires 1 <= |name| && IdentStart(name[0]) && forall i :: 0 <= i < |name| ==> IdentChar(name[i])
    ensures var r := name + ":" + mid + "\n" + tail;
      LabelOf(r) == Some(name) && EndsWith(r, "\n" + tail)
  {
    var r := name + ":" + mid + "\n" + tail;
    assert r[..|name|] == name && r[|name|] == ':';
    IdentLengthIs(r, |name|);
    assert r[|r| - |"\n" + tail|..] == "\n" + tail;
  }

  /** The 0-based index of the first line after block `k - 1` (0 before the first block). */
  function Resume(blocks: seq<Block>, k: nat): (p: nat)
    requires k <= |blocks|
  {
    if k == 0 then 0 else blocks[k - 1].endLine
  }

  /** `Replacement` for the data directory `dir`, as a value the splice can be given. */
  function Replacer(dir: string): (string, Block) -> Option<string>
  {
    (line, b) => Replacement(line, b, dir)
  }

  /** Each block's replacement computed from its first line, in block order. */
  function Plan(lines: seq<string>, blocks: seq<Block>, replace: (string, Block) -> Option<string>): (reps: seq<Option<string>>)
    requires WellPlaced(blocks, |lines|)
    ensures |reps| == |blocks|
  {
    seq(|blocks|, k requires 0 <= k < |blocks| => replace(lines[blocks[k].startLine - 1], blocks[k]))
  }

  /** What takes block `b`'s place: its replacement, or its own lines when it has none. */
  function Piece(lines: seq<string>, b: Block, rep: Option<string>): (r: seq<string>)
    requires 1 <= b.startLine <= b.endLine <= |lines|
  {
    match rep
    case Some(x) => [x]
    case None => lines[b.startLine - 1..b.endLine]
  }

  /** The spliced text up to the last line of block `k - 1`. */
  function Front(lines: seq<string>, blocks: seq<Block>, reps: seq<Option<string>>, k: nat): seq<string>
    requires WellPlaced(blocks, |lines|) && |reps| == |blocks| && k <= |blocks|
  {
    if k == 0 then []
    else
      var b := blocks[k - 1];
      Front(lines, blocks, reps, k - 1) + lines[Resume(blocks, k - 1)..b.startLine - 1] + Piece(lines, b, reps[k - 1])
  }

  /**
   * The lines with each block that has a replacement spliced out for it: the
   * lines between blocks are kept, in order, and so are the lines of a block
   * left alone.
   */
  function Splice(lines: seq<string>, blocks: seq<Block>, reps: seq<Option<string>>): seq<string>
    requires WellPlaced(blocks, |lines|) && |reps| == |blocks|
  {
    Front(lines, blocks, reps, |blocks|) + lines[Resume(blocks, |blocks|)..]
  }

  /** The lines with every block whose first line has a label replaced. */
  function Rebuilt(lines: seq<string>, blocks: seq<Block>, dir: string): seq<string>
    requires WellPlaced(blocks, |lines|)
  {
    Splice(lines, blocks, Plan(lines, blocks, Replacer(dir)))
  }

  /** `Σ (num_lines - 1)` over the first `k` blocks that have a replacement. */
  function Removed(blocks: seq<Block>, reps: seq<Option<string>>, k: nat): (n: nat)
    requires |reps| == |blocks| && k <= |blocks|
    requires forall j :: 0 <= j < |blocks| ==> blocks[j].startLine <= blocks[j].endLine
  {
    if k == 0 then 0
    else
      var b := blocks[k - 1];
      Removed(blocks, reps, k - 1) + if reps[k - 1].Some? then b.endLine - b.startLine else 0
  }

  /** The spliced front is the lines it covers, less one line per replaced block line beyond its first. */
  lemma {:induction false} FrontLength(lines: seq<string>, blocks: seq<Block>, reps: seq<Option<string>>, k: nat)
    requires WellPlaced(blocks, |lines|) && |reps| == |blocks| && k <= |blocks|
    ensures |Front(lines, blocks, reps, k)| == Resume(blocks, k) - Removed(blocks, reps, k)
    ensures Removed(blocks, reps, k) <= Resume(blocks, k)
  {
    if k > 0 {
      var b := blocks[k - 1];
      FrontLength(lines, blocks, reps, k - 1);
      if k > 1 {
        assert blocks[k - 2].endLine < b.startLine;
      }
      PieceLength(lines, b, reps[k - 1]);
    }
  }

  /** A replaced block leaves one line, a block left alone all of its lines. */
  lemma {:induction false} PieceLength(lines: seq<string>, b: Block, rep: Option<string>)
    requires 1 <= b.startLine <= b.endLine <= |lines|
    ensures |Piece(lines, b, rep)| == if rep.Some? then 1 else b.endLine - b.startLine + 1
  {
  }

  /**
   * The result has `Σ (num_lines - 1)` fewer lines than the input, the sum
   * over the replaced blocks.
   */
  lemma {:induction false} RebuiltLength(lines: seq<string>, blocks: seq<Block>, dir: string)
    requires WellPlaced(blocks, |lines|)
    ensures |Rebuilt(lines, blocks, dir)| == |lines| - Removed(blocks, Plan(lines, blocks, Replacer(dir)), |blocks|)
  {
    FrontLength(lines, blocks, Plan(lines, blocks, Replacer(dir)), |blocks|);
  }

  /** The front one block further on is the front, the lines up to the block, and the block's piece. */
  lemma {:induction false} FrontNext(lines: seq<string>, blocks: seq<Block>, reps: seq<Option<string>>, k: nat)
    requires WellPlaced(blocks, |lines|) && |reps| == |blocks| && k < |blocks|
    ensures Resume(blocks, k) <= blocks[k].startLine - 1
    ensures Front(lines, blocks, reps, k + 1)
            == Front(lines, blocks, reps, k) + lines[Resume(blocks, k)..blocks[k].startLine - 1] + Piece(lines, blocks[k], reps[k])
  {
    if k > 0 {
      assert blocks[k - 1].endLine < blocks[k].startLine;
    }
  }

  /**
   * The loop's state after `k` blocks: `cur` is the text spliced up to block
   * `k - 1` followed by the untouched lines, and `offset` is minus the number
   * of lines removed so far.
   */
  predicate SplicedUpTo(lines: seq<string>, blocks: seq<Block>, reps: seq<Option<string>>, k: nat, cur: seq<string>, offset: int)
    requires WellPlaced(blocks, |lines|) && |reps| == |blocks| && k <= |blocks|
  {
    && cur == Front(lines, blocks, reps, k) + lines[Resume(blocks, k)..]
    && offset == -(Removed(blocks, reps, k) as int)
  }

  /** `start_idx` and `end_idx` bound block `k`'s own lines in the text so far, and the first of them is unchanged. */
  lemma {:induction false} StepBounds(lines: seq<string>, blocks: seq<Block>, reps: seq<Option<string>>,
                   k: nat, cur: seq<string>, offset: int)
    requires WellPlaced(blocks, |lines|) && |reps| == |blocks| && k < |blocks|
    requires SplicedUpTo(lines, blocks, reps, k, cur, offset)
    ensures var s := blocks[k].startLine - 1 + offset;
            var e := blocks[k].endLine + offset;
            && 0 <= s < e <= |cur| && cur[s] == lines[blocks[k].startLine - 1]
  {
    var b := blocks[k];
    FrontLength(lines, blocks, reps, k);
    if k > 0 {
      assert blocks[k - 1].endLine < b.startLine;
    }
    CutAround(Front(lines, blocks, reps, k), lines, Resume(blocks, k), b.startLine - 1, b.endLine,
      b.startLine - 1 + offset, b.endLine + offset);
  }

  /** A block whose first line has a label is replaced by its one line, and the offset drops by the lines it lost. */
  lemma {:induction false} StepReplaced(lines: seq<string>, blocks: seq<Block>, reps: seq<Option<string>>, k: nat, cur: seq<string>, offset: int,
                     s: int, e: int, next: seq<string>, nextOffset: int)
    requires WellPlaced(blocks, |lines|) && |reps| == |blocks| && k < |blocks|
    requires SplicedUpTo(lines, blocks, reps, k, cur, offset)
    requires s == blocks[k].startLine - 1 + offset && e == blocks[k].endLine + offset && 0 <= s < e <= |cur|
    requires reps[k].Some? && next == cur[..s] + [reps[k].value] + cur[e..] && nextOffset == offset - (e - s - 1)
    ensures SplicedUpTo(lines, blocks, reps, k + 1, next, nextOffset)
  {
    var b := blocks[k];
    FrontLength(lines, blocks, reps, k);
    FrontNext(lines, blocks, reps, k);
    PieceSpliced(Front(lines, blocks, reps, k), Front(lines, blocks, reps, k + 1), lines, Resume(blocks, k), b,
      reps[k], cur, next, s, e);
    assert Removed(blocks, reps, k + 1) == Removed(blocks, reps, k) + (b.endLine - b.startLine);
  }

  /** A block whose first line has no label is left in place, and the offset stays. */
  lemma {:induction false} StepSkipped(lines: seq<string>, blocks: seq<Block>, reps: seq<Option<string>>, k: nat, cur: seq<string>, offset: int)
    requires WellPlaced(blocks, |lines|) && |reps| == |blocks| && k < |blocks|
    requires SplicedUpTo(lines, blocks, reps, k, cur, offset) && reps[k].None?
    ensures SplicedUpTo(lines, blocks, reps, k + 1, cur, offset)
  {
    var b := blocks[k];
    FrontNext(lines, blocks, reps, k);
    Regrouped(Front(lines, blocks, reps, k), Front(lines, blocks, reps, k + 1), lines, Resume(blocks, k), b.startLine - 1, b.endLine);
    assert Removed(blocks, reps, k + 1) == Removed(blocks, reps, k);
  }

  /** Cutting `xs[from..]` at `st` and `en` and putting the three parts back together changes nothing. */
  lemma {:induction false} Regrouped<T>(front: seq<T>, front': seq<T>, xs: seq<T>, from: nat, st: nat, en: nat)
    requires from <= st <= en <= |xs| && front' == front + xs[from..st] + xs[st..en]
    ensures front' + xs[en..] == front + xs[from..]
  {
    assert xs[from..st] + xs[st..en] + xs[en..] == xs[from..];
  }

  /** The splice of one replaced block, stated on the sequences alone. */
  lemma {:induction false} PieceSpliced(front: seq<string>, front': seq<string>, lines: seq<string>, from: nat, b: Block, rep: Option<string>,
                     cur: seq<string>, next: seq<string>, s: int, e: int)
    requires from <= b.startLine - 1 && 1 <= b.startLine <= b.endLine <= |lines|
    requires front' == front + lines[from..b.startLine - 1] + Piece(lines, b, rep)
    requires cur == front + lines[from..]
    requires s == |front| + (b.startLine - 1 - from) && e == s + (b.endLine - b.startLine + 1)
    requires rep.Some? && next == cur[..s] + [rep.value] + cur[e..]
    ensures next == front' + lines[b.endLine..]
  {
    CutAround(front, lines, from, b.startLine - 1, b.endLine, s, e);
  }

  /** Cutting `front + xs[from..]` at `s` and `e`, around the part that came from `xs[st..en]`. */
  lemma {:induction false} CutAround<T>(front: seq<T>, xs: seq<T>, from: nat, st: nat, en: nat, s: int, e: int)
    requires from <= st <= en <= |xs|
    requires s == |front| + (st - from) && e == s + (en - st)
    ensures 0 <= s <= e <= |front + xs[from..]|
    ensures (front + xs[from..])[..s] == front + xs[from..st]
    ensures (front + xs[from..])[s..e] == xs[st..en]
    ensures (front + xs[from..])[e..] == xs[en..]
  {
    var cur := front + xs[from..];
    assert cur[..s] == front + xs[from..st];
    assert cur[s..e] == xs[st..en];
    assert cur[e..] == xs[en..];
  }

  /**
   * `replace_with_binclude`: walks the blocks in order, finds each one's
   * first line at `start_line - 1 + offset`, and when it starts with a label
   * splices the replacement over the block's lines and lowers the offset by
   * `num_lines - 1`; a block whose first line has no label is skipped.
   */
  method ReplaceWithBinclude(lines: seq<string>, blocks: seq<Block>, dir: string) returns (newLines: seq<string>)
    requires WellPlaced(blocks, |lines|)
    ensures newLines == Rebuilt(lines, blocks, dir)
    ensures |newLines| == |lines| - Removed(blocks, Plan(lines, blocks, Replacer(dir)), |blocks|)
  {
    newLines := SpliceBlocks(lines, blocks, Plan(lines, blocks, Replacer(dir)));
  }

  /**
   * The loop of `replace_with_binclude` given each block's replacement.
   * `StepBounds` shows the line found at `start_idx` is the block's first
   * input line, so deciding from it or from the input is the same.
   */
  method SpliceBlocks(lines: seq<string>, blocks: seq<Block>, reps: seq<Option<string>>) returns (newLines: seq<string>)
    requires WellPlaced(blocks, |lines|) && |reps| == |blocks|
    ensures newLines == Splice(lines, blocks, reps)
    ensures |newLines| == |lines| - Removed(blocks, reps, |blocks|)
  {
    newLines := lines;
    var offset: int := 0;
    var k := 0;
    while k < |blocks|
      invariant k <= |blocks|
      invariant SplicedUpTo(lines, blocks, reps, k, newLines, offset)
    {
      newLines, offset := SpliceOne(lines, blocks, reps, k, newLines, offset);
      k := k + 1;
    }
    SplicedAll(lines, blocks, reps, newLines, offset);
  }

  /**
   * One turn of the loop: block `k`'s lines sit at `start_idx .. end_idx` of
   * the text so far; a replacement takes their place and the offset drops by
   * `num_lines - 1`, and without one nothing changes.
   */
  method SpliceOne(lines: seq<string>, blocks: seq<Block>, reps: seq<Option<string>>, k: nat, cur: seq<string>, offset: int)
    returns (next: seq<string>, nextOffset: int)
    requires WellPlaced(blocks, |lines|) && |reps| == |blocks| && k < |blocks|
    requires SplicedUpTo(lines, blocks, reps, k, cur, offset)
    ensures SplicedUpTo(lines, blocks, reps, k + 1, next, nextOffset)
  {
    var b := blocks[k];
    StepBounds(lines, blocks, reps, k, cur, offset);
    var startIdx := b.startLine - 1 + offset;
    var endIdx := b.endLine + offset;
    var rep := reps[k];
    if rep.Some? {
      var numLines := endIdx - startIdx;
      next := cur[..startIdx] + [rep.value] + cur[endIdx..];
      nextOffset := offset - (numLines - 1);
      StepReplaced(lines, blocks, reps, k, cur, offset, startIdx, endIdx, next, nextOffset);
    } else {
      next, nextOffset := cur, offset;
      StepSkipped(lines, blocks, reps, k, cur, offset);
    }
  }

  /** After the last block the loop's text is the splice, and it is shorter by the lines removed. */
  lemma {:induction false} SplicedAll(lines: seq<string>, blocks: seq<Block>, reps: seq<Option<string>>, cur: seq<string>, offset: int)
    requires WellPlaced(blocks, |lines|) && |reps| == |blocks|
    requires SplicedUpTo(lines, blocks, reps, |blocks|, cur, offset)
    ensures cur == Splice(lines, blocks, reps)
    ensures |cur| == |lines| - Removed(blocks, reps, |blocks|)
  {
    FrontLength(lines, blocks, reps, |blocks|);
  }

  /**
   * The blocks `split_data_blocks` returns each start at a label line, so
   * every one of them is replaced.
   */
  lemma {:induction false} SplitBlocksReplaced(lines: seq<string>, minSize: int, dir: string)
    requires AllLines(lines)
    ensures var r := SplitDataBlocks(lines, minSize);
            r.Ok? ==> forall k :: 0 <= k < |r.value| ==>
              var b := r.value[k];
              1 <= b.startLine <= |lines| && Replacement(lines[b.startLine - 1], b, dir).Some?
  {
    SplitDataBlocksLines(lines, minSize);
  }
}
