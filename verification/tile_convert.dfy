/**
 * The decisions of `main` in scripts/convert_tiles.py, without its file
 * handling. For each tile address the script finds the line that starts
 * with `byte_<ADDR>:`. When that line already holds a `binclude`, the file
 * name is renamed unless it is already right. Otherwise the inline `dc` data
 * after the label is extracted and the lines it came from are replaced. The
 * changes are gathered against the unmodified lines and spliced in at the
 * end, in descending order of their first line.
 */
module TileConvert {
  import opened Results
  import opened Bytes
  import opened Text
  import opened DcValues
  import opened DcLines
  import opened DataBlocks
  import opened Sorting
  import opened Arithmetic

  // ---------------------------------------------------------------------------
  // Addresses and labels
  // ---------------------------------------------------------------------------

  /** `normalize_addr`: the address without its leading `'0'`s, upper-cased. */
  function NormalizeAddr(addr: string): (r: string)
    ensures |r| == |addr| - LeadingCount(addr, '0')
    ensures forall i :: 0 <= i < |r| ==> r[i] == UpperChar(addr[LeadingCount(addr, '0') + i])
    ensures r == [] || r[0] != '0'
  {
    Upper(LStripChar(addr, '0'))
  }

  /** Normalising a normalised address changes nothing. */
  lemma {:induction false} NormalizeIdempotent(addr: string)
    ensures NormalizeAddr(NormalizeAddr(addr)) == NormalizeAddr(addr)
  {
    var r := NormalizeAddr(addr);
    assert LeadingCount(r, '0') == 0;
    assert LStripChar(r, '0') == r;
    UpperIdempotent(LStripChar(addr, '0'));
  }

  /** The label the script looks for. */
  function LabelFor(addr: string): string
  {
    "byte_" + NormalizeAddr(addr)
  }

  /** The file the tiles of `addr` go to; it keeps the address as written. */
  function TilesFile(addr: string): string
  {
    "data/tiles_" + addr + ".bin"
  }

  /** The first line from index `i` on that starts with `label:`. */
  function FindLabelFrom(lines: seq<string>, name: string, i: nat): (r: Option<nat>)
    requires i <= |lines|
    ensures r.Some? ==> i <= r.value < |lines| && StartsWith(lines[r.value], name + ":")
    ensures r.Some? ==> forall j :: i <= j < r.value ==> !StartsWith(lines[j], name + ":")
    ensures r.None? ==> forall j :: i <= j < |lines| ==> !StartsWith(lines[j], name + ":")
    decreases |lines| - i
  {
    if i == |lines| then None
    else if StartsWith(lines[i], name + ":") then Some(i)
    else FindLabelFrom(lines, name, i + 1)
  }

  /** The index of the label's line: the first line starting with `label:`. */
  function FindLabel(lines: seq<string>, name: string): (r: Option<nat>)
    ensures r.Some? ==> r.value < |lines| && StartsWith(lines[r.value], name + ":")
    ensures r.Some? ==> forall j :: 0 <= j < r.value ==> !StartsWith(lines[j], name + ":")
    ensures r.None? <==> forall j :: 0 <= j < |lines| ==> !StartsWith(lines[j], name + ":")
  {
    FindLabelFrom(lines, name, 0)
  }

  // ---------------------------------------------------------------------------
  // `binclude\s+"([^"]+)"`, searched for
  // ---------------------------------------------------------------------------

  /** Where the quoted name would start: after `binclude` and the whitespace that follows. */
  function QuoteAt(line: string, p: nat): (o: nat)
    requires p + 8 <= |line|
    ensures p + 8 <= o <= |line| && AllSpace(line[p + 8..o])
    ensures o < |line| ==> !IsSpace(line[o])
  {
    var m := LeadingSpace(line[p + 8..]);
    assert line[p + 8..p + 8 + m] == line[p + 8..][..m];
    p + 8 + m
  }

  /**
   * `binclude`, at least one whitespace character, and `"name"` with a
   * non-empty name free of quotes, at index `p`.
   */
  predicate Matches(line: string, p: nat, name: string)
  {
    && OccursAt(line, "binclude", p)
    && p + 8 < QuoteAt(line, p)
    && name != [] && '"' !in name
    && OccursAt(line, "\"" + name + "\"", QuoteAt(line, p))
  }

  /** A non-empty quote-free name in double quotes at index `o`. */
  function QuotedAt(line: string, o: nat): (r: Option<string>)
    requires o <= |line|
    ensures r.Some? ==> r.value != [] && '"' !in r.value && OccursAt(line, "\"" + r.value + "\"", o)
  {
    if o == |line| || line[o] != '"' then None
    else
      var rest := line[o + 1..];
      var k := IndexOfChar(rest, '"');
      if k == 0 || k == |rest| then None
      else
        assert line[o..o + k + 2] == "\"" + rest[..k] + "\"";
        Some(rest[..k])
  }

  /** A quoted name at `o` is the one `QuotedAt` reads: a name cannot contain `"`. */
  lemma {:induction false} QuotedFound(line: string, o: nat, name: string)
    requires o <= |line| && name != [] && '"' !in name && OccursAt(line, "\"" + name + "\"", o)
    ensures QuotedAt(line, o) == Some(name)
  {
    var rest := line[o + 1..];
    var w := "\"" + name + "\"";
    assert line[o..o + |w|] == w;
    assert line[o] == w[0] == '"';
    assert rest[|name|] == w[|name| + 1] == '"';
    assert forall i :: 0 <= i < |name| ==> w[1 + i] == name[i];
    assert rest[..|name|] == line[o + 1..o + 1 + |name|] == name;
    FirstQuote(rest, name);
  }

  /** The first quote of a text that starts with a quote-free name and a quote ends the name. */
  lemma {:induction false} FirstQuote(rest: string, name: string)
    requires |name| < |rest| && rest[..|name|] == name && rest[|name|] == '"' && '"' !in name
    ensures IndexOfChar(rest, '"') == |name|
  {
  }

  /**
   * The pattern matched at index `p`. Whitespace is not `"`, so there is
   * nothing to backtrack over: the match, when there is one, is the only one
   * at `p`.
   */
  function BincludeAt(line: string, p: nat): (r: Option<string>)
    ensures r.Some? ==> Matches(line, p, r.value)
  {
    if !OccursAt(line, "binclude", p) || QuoteAt(line, p) == p + 8 then None
    else QuotedAt(line, QuoteAt(line, p))
  }

  /** A match at `p` is the one `BincludeAt` finds: the pattern has one way to match. */
  lemma {:induction false} MatchFound(line: string, p: nat, name: string)
    requires Matches(line, p, name)
    ensures BincludeAt(line, p) == Some(name)
  {
    QuotedFound(line, QuoteAt(line, p), name);
  }

  /** `re.search`: the least index from `p` on where the pattern matches. */
  function FirstBinclude(line: string, p: nat): (r: Option<nat>)
    requires p <= |line|
    ensures r.Some? ==> p <= r.value <= |line| && BincludeAt(line, r.value).Some?
    decreases |line| - p
  {
    if BincludeAt(line, p).Some? then Some(p)
    else if p == |line| then None
    else FirstBinclude(line, p + 1)
  }

  /** Every match from `p` on is found, or one before it is: the search misses nothing. */
  lemma {:induction false} FirstIsLeast(line: string, p: nat, q: nat)
    requires p <= q <= |line| && BincludeAt(line, q).Some?
    ensures FirstBinclude(line, p).Some? && FirstBinclude(line, p).value <= q
    decreases q - p
  {
    if p < q && BincludeAt(line, p).None? {
      FirstIsLeast(line, p + 1, q);
    }
  }

  /** The file a line's `binclude` names, if it has one. */
  function BincludeTarget(line: string): Option<string>
  {
    match FirstBinclude(line, 0)
    case None => None
    case Some(q) => BincludeAt(line, q)
  }

  // ---------------------------------------------------------------------------
  // Inline data after the label
  // ---------------------------------------------------------------------------

  /** `'\tdc.' in line or ' dc.' in line`: the label's own line may hold data. */
  predicate MentionsDc(line: string)
  {
    Contains(line, "\tdc.") || Contains(line, " dc.")
  }

  /** A parse as the script uses it: nothing parsed adds no bytes. */
  function AsBytes(p: Parsed): (r: Result<seq<byte>, DcError>)
    ensures r.Err? <==> p.Err?
    ensures r.Err? ==> r.error == p.error
    ensures r.Ok? && r.value != [] ==> p == Ok(Some(r.value))
  {
    match p
    case Err(e) => Err(e)
    case Ok(None) => Ok([])
    case Ok(Some(bs)) => Ok(bs)
  }

  /** What follows the first `:` of a line is a line too. */
  lemma {:induction false} AfterIsLine(line: string, before: string, after: string)
    requires IsLine(line) && line == before + [':'] + after
    ensures IsLine(after)
  {
    assert after == line[|before| + 1..];
    SuffixIsLine(line, |before| + 1);
  }

  /**
   * The bytes on the label's own line: the text after its first `:`, parsed
   * when the line mentions `dc.`. A parse that yields nothing adds nothing;
   * a value the parser raises on stops the script.
   */
  function LabelLineData(line: string): (r: Result<seq<byte>, DcError>)
    requires IsLine(line)
    ensures !MentionsDc(line) || ':' !in line ==> r == Ok([])
  {
    if !MentionsDc(line) then Ok([])
    else match SplitOnce(line, ':')
      case NoSeparator => Ok([])
      case Parted(before, after) =>
        AfterIsLine(line, before, after);
        AsBytes(ParseDcLine(after, SemicolonFreePrefix))
  }

  /** What the loop over the following lines does with one line. */
  datatype Verdict =
    | Skip                   // blank or a comment: passed over
    | Take(bytes: seq<byte>) // a `dc` line with data: its bytes are added
    | Stop                   // anything else, or a `dc` line without data
    | Fail(error: DcError)   // a `dc` line whose value the parser raises on
  {
    /** The loop goes on past the line. */
    predicate Continues()
    {
      Skip? || Take?
    }
  }

  /** The verdict on line `l`. */
  function Judge(l: string): (v: Verdict)
    requires IsLine(l)
    ensures v.Skip? <==> Blank(l)
    ensures v.Continues() ==> Blank(l) || DcStart(l)
    ensures v.Take? ==> v.bytes != [] && ParseDcLine(l, SemicolonFreePrefix) == Ok(Some(v.bytes))
    ensures v.Fail? <==> !Blank(l) && DcStart(l) && ParseDcLine(l, SemicolonFreePrefix).Err?
  {
    if Blank(l) then Skip
    else if !DcStart(l) then Stop
    else match ParseDcLine(l, SemicolonFreePrefix)
      case Err(e) => Fail(e)
      case Ok(None) => Stop
      case Ok(Some(bs)) => if bs == [] then Stop else Take(bs)
  }

  /** The verdicts on every line, computed once. */
  function Verdicts(lines: seq<string>): (vs: seq<Verdict>)
    requires AllLines(lines)
    ensures |vs| == |lines|
    ensures forall k :: 0 <= k < |lines| ==> vs[k] == Judge(lines[k])
  {
    seq(|lines|, k requires 0 <= k < |lines| => Judge(lines[k]))
  }

  /** The line the loop breaks at, or `|vs|` when it runs to the end. */
  function RunEnd(vs: seq<Verdict>, i: nat): (j: nat)
    requires i <= |vs|
    ensures i <= j <= |vs|
    ensures forall k :: i <= k < j ==> vs[k].Continues()
    ensures j < |vs| ==> !vs[j].Continues()
    decreases |vs| - i
  {
    if i == |vs| || !vs[i].Continues() then i else RunEnd(vs, i + 1)
  }

  /** The bytes of the `Take` lines in `[i, j)`, in order. */
  function Taken(vs: seq<Verdict>, i: nat, j: nat): seq<byte>
    requires i <= j <= |vs|
    decreases j - i
  {
    if j == i then []
    else Taken(vs, i, j - 1) + (if vs[j - 1].Take? then vs[j - 1].bytes else [])
  }

  /** The last `Take` line in `[i, j)`, or `dflt` when there is none. */
  function LastTaken(vs: seq<Verdict>, i: nat, j: nat, dflt: nat): (t: nat)
    requires i <= j <= |vs|
    ensures t == dflt || (i <= t < j && vs[t].Take?)
    ensures forall k :: i <= k < j && vs[k].Take? ==> k <= t < j && vs[t].Take?
    decreases j - i
  {
    if j == i then dflt
    else if vs[j - 1].Take? then j - 1
    else LastTaken(vs, i, j - 1, dflt)
  }

  /** The bytes gathered so far and the last line they came from. */
  datatype Scan = Scan(data: seq<byte>, last: nat)

  /**
   * The loop over the lines from `i` on, starting from `acc`: it stops at the
   * first line that is neither blank nor a `dc` line with data, and fails when
   * that line is one whose value the parser raises on.
   */
  function CollectFrom(vs: seq<Verdict>, i: nat, acc: Scan): (r: Result<Scan, DcError>)
    requires i <= |vs|
    ensures var j := RunEnd(vs, i);
            r.Err? <==> j < |vs| && vs[j].Fail?
    ensures r.Ok? ==> r.value == Scan(acc.data + Taken(vs, i, RunEnd(vs, i)),
                                      LastTaken(vs, i, RunEnd(vs, i), acc.last))
    decreases |vs| - i
  {
    if i == |vs| then Ok(acc)
    else match vs[i]
      case Skip =>
        TakenCons(vs, i, RunEnd(vs, i));
        LastTakenCons(vs, i, RunEnd(vs, i), acc.last);
        CollectFrom(vs, i + 1, acc)
      case Take(bs) =>
        TakenCons(vs, i, RunEnd(vs, i));
        LastTakenCons(vs, i, RunEnd(vs, i), acc.last);
        CollectFrom(vs, i + 1, Scan(acc.data + bs, i))
      case Stop => Ok(acc)
      case Fail(e) => Err(e)
  }

  /** `Taken` peeled from the front. */
  lemma {:induction false} TakenCons(vs: seq<Verdict>, i: nat, j: nat)
    requires i < j <= |vs|
    ensures Taken(vs, i, j) == (if vs[i].Take? then vs[i].bytes else []) + Taken(vs, i + 1, j)
    decreases j - i
  {
    if j > i + 1 {
      TakenCons(vs, i, j - 1);
    }
  }

  /** `LastTaken` peeled from the front: a later `Take` line wins over line `i`. */
  lemma {:induction false} LastTakenCons(vs: seq<Verdict>, i: nat, j: nat, dflt: nat)
    requires i < j <= |vs|
    ensures LastTaken(vs, i, j, dflt) == LastTaken(vs, i + 1, j, if vs[i].Take? then i else dflt)
    decreases j - i
  {
    if j > i + 1 {
      LastTakenCons(vs, i, j - 1, dflt);
    }
  }

  // ---------------------------------------------------------------------------
  // One address
  // ---------------------------------------------------------------------------

  /** `lines[start:end] = [content]`, as recorded in `changes`. */
  datatype Splice = Splice(start: nat, end: nat, content: string)

  /** What the script does for one address. */
  datatype Outcome =
    | LabelMissing                                 // `[SKIP] ... not found`
    | AlreadyNamed                                 // `[OK] ... already uses`
    | NoData                                       // `[SKIP] ... no parseable data`
    | Renamed(splice: Splice)                      // the binclude line with the new file name
    | Extracted(splice: Splice, data: seq<byte>)   // `data` is written to the tiles file
  {
    /** The outcome records a change. */
    predicate Changes()
    {
      Renamed? || Extracted?
    }
  }

  /** What replaces extracted data: the label with a `binclude`, and an end label. */
  function ExtractContent(name: string, file: string): (c: string)
    ensures StartsWith(c, name + ":")
    ensures EndsWith(c, name + "_End:\n")
  {
    var c := name + ":\tbinclude\t\"" + file + "\"\n" + name + "_End:\n";
    assert c[..|name| + 1] == name + ":";
    assert c[|c| - |name + "_End:\n"|..] == name + "_End:\n";
    c
  }

  /**
   * A change may be spliced in: it starts at a line that begins with a
   * `byte_` label, and every further line it replaces is blank, a comment or
   * a `dc` line.
   */
  predicate Covers(lines: seq<string>, sp: Splice)
  {
    && sp.start < sp.end <= |lines|
    && StartsWith(lines[sp.start], "byte_")
    && forall k :: sp.start < k < sp.end ==> Blank(lines[k]) || DcStart(lines[k])
  }

  /** The data lines after the label at `i`: its own line, then the loop. */
  function ScanLabel(lines: seq<string>, i: nat): (r: Result<Scan, DcError>)
    requires AllLines(lines) && i < |lines|
    ensures r.Ok? ==> i <= r.value.last < |lines|
    ensures r.Ok? ==> forall k :: i < k <= r.value.last ==> Blank(lines[k]) || DcStart(lines[k])
  {
    match LabelLineData(lines[i])
    case Err(e) => Err(e)
    case Ok(first) =>
      var vs := Verdicts(lines);
      var r := CollectFrom(vs, i + 1, Scan(first, i));
      assert r.Ok? ==> forall k :: i < k <= r.value.last ==> vs[k].Continues();
      r
  }

  /** The decision for the label found at line `i`. */
  function DecideAt(lines: seq<string>, addr: string, i: nat): (r: Result<Outcome, DcError>)
    requires AllLines(lines) && i < |lines| && StartsWith(lines[i], LabelFor(addr) + ":")
    ensures r.Ok? && r.value.Changes() ==> r.value.splice.start == i && Covers(lines, r.value.splice)
    ensures r.Ok? && r.value.Extracted? ==> r.value.data != []
    ensures r.Ok? && r.value.Extracted? ==> && BincludeTarget(lines[i]).None?
                                            && r.value.splice.content == ExtractContent(LabelFor(addr), TilesFile(addr))
    ensures r.Ok? && r.value.Renamed? ==> && r.value.splice.end == i + 1
                                          && BincludeTarget(lines[i]).Some?
                                          && BincludeTarget(lines[i]).value != TilesFile(addr)
    ensures r == Ok(AlreadyNamed) <==> BincludeTarget(lines[i]) == Some(TilesFile(addr))
    ensures r.Err? ==> BincludeTarget(lines[i]).None?
    ensures r != Ok(LabelMissing)
  {
    var line := lines[i];
    var file := TilesFile(addr);
    assert StartsWith(line, "byte_") by {
      assert line[..5] == (LabelFor(addr) + ":")[..5];
    }
    match BincludeTarget(line)
    case Some(current) =>
      if current == file then Ok(AlreadyNamed)
      else Ok(Renamed(Splice(i, i + 1, ReplaceAll(line, current, file))))
    case None => ExtractAt(lines, addr, i)
  }

  /** A label with no `binclude`: its data is extracted, unless it has none. */
  function ExtractAt(lines: seq<string>, addr: string, i: nat): (r: Result<Outcome, DcError>)
    requires AllLines(lines) && i < |lines| && StartsWith(lines[i], "byte_")
    ensures r.Ok? ==> r.value == NoData || r.value.Extracted?
    ensures r.Ok? && r.value.Extracted? ==> && r.value.splice.start == i && Covers(lines, r.value.splice)
                                            && r.value.data != []
                                            && r.value.splice.content == ExtractContent(LabelFor(addr), TilesFile(addr))
  {
    match ScanLabel(lines, i)
    case Err(e) => Err(e)
    case Ok(sc) =>
      if sc.data == [] then Ok(NoData)
      else Ok(Extracted(Splice(i, sc.last + 1, ExtractContent(LabelFor(addr), TilesFile(addr))), sc.data))
  }

  /** The loop body of `main` for one address, against the unmodified lines. */
  function Decide(lines: seq<string>, addr: string): (r: Result<Outcome, DcError>)
    requires AllLines(lines)
    ensures r == Ok(LabelMissing) <==> FindLabel(lines, LabelFor(addr)).None?
    ensures r.Ok? && r.value.Changes() ==> Covers(lines, r.value.splice)
    ensures r.Ok? && r.value.Changes() ==> FindLabel(lines, LabelFor(addr)) == Some(r.value.splice.start)
  {
    match FindLabel(lines, LabelFor(addr))
    case None => Ok(LabelMissing)
    case Some(i) => DecideAt(lines, addr, i)
  }

  /**
   * The changes of all addresses, in the order of the address file. A
   * value the parser raises on stops the script before anything is written.
   */
  function Changes(lines: seq<string>, addrs: seq<string>): (r: Result<seq<Splice>, DcError>)
    requires AllLines(lines)
    ensures r.Ok? <==> forall k :: 0 <= k < |addrs| ==> Decide(lines, addrs[k]).Ok?
    ensures r.Ok? ==> |r.value| <= |addrs| && forall sp :: sp in r.value ==> Covers(lines, sp)
  {
    ChangeListOk(lines, addrs);
    ChangeListCovers(lines, addrs);
    ChangeList(lines, addrs)
  }

  /** The loop over the addresses: the first error, or each address's change in order. */
  function ChangeList(lines: seq<string>, addrs: seq<string>): Result<seq<Splice>, DcError>
    requires AllLines(lines)
  {
    if addrs == [] then Ok([])
    else match Decide(lines, addrs[0])
      case Err(e) => Err(e)
      case Ok(o) =>
        match ChangeList(lines, addrs[1..])
        case Err(e) => Err(e)
        case Ok(rest) => Ok((if o.Changes() then [o.splice] else []) + rest)
  }

  /** The loop gets through exactly when every address is decided. */
  lemma {:induction false} ChangeListOk(lines: seq<string>, addrs: seq<string>)
    requires AllLines(lines)
    ensures ChangeList(lines, addrs).Ok? <==> forall k :: 0 <= k < |addrs| ==> Decide(lines, addrs[k]).Ok?
  {
    if addrs != [] {
      var tail := addrs[1..];
      ChangeListOk(lines, tail);
      assert ChangeList(lines, addrs).Ok? <==> Decide(lines, addrs[0]).Ok? && ChangeList(lines, tail).Ok?;
      assert forall k :: 0 < k < |addrs| ==> addrs[k] == tail[k - 1];
    }
  }

  /** Each change the loop collects covers its range, and there is at most one per address. */
  lemma {:induction false} ChangeListCovers(lines: seq<string>, addrs: seq<string>)
    requires AllLines(lines)
    ensures var r := ChangeList(lines, addrs);
            r.Ok? ==> |r.value| <= |addrs| && forall sp :: sp in r.value ==> Covers(lines, sp)
  {
    if addrs != [] {
      ChangeListCovers(lines, addrs[1..]);
    }
  }

  // ---------------------------------------------------------------------------
  // Splicing the changes in
  // ---------------------------------------------------------------------------

  /**
   * `xs[start:end] = [content]` in Python: both bounds are clamped to the
   * length, and an end before the start replaces nothing.
   */
  function Assign(xs: seq<string>, sp: Splice): (r: seq<string>)
    ensures var s := Min(sp.start, |xs|);
            var e := Max(s, Min(sp.end, |xs|));
            |r| == |xs| - (e - s) + 1 && r[..s] == xs[..s] && r[s] == sp.content && r[s + 1..] == xs[e..]
  {
    var s := Min(sp.start, |xs|);
    var e := Max(s, Min(sp.end, |xs|));
    xs[..s] + [sp.content] + xs[e..]
  }

  /** The splices applied one after another, each to the result of the last. */
  function ApplyAll(xs: seq<string>, sps: seq<Splice>): seq<string>
    decreases |sps|
  {
    if sps == [] then xs else ApplyAll(Assign(xs, sps[0]), sps[1..])
  }

  /** A key whose ascending order is the descending order of first lines. */
  function NegStart(sp: Splice): int
  {
    -(sp.start as int)
  }

  /** `sort(key=lambda x: x[0], reverse=True)`: by first line, highest first, stable. */
  function ByStartDescending(): (le: (Splice, Splice) -> bool)
    ensures forall a, b :: le(a, b) <==> a.start >= b.start
  {
    ByIntKey(NegStart)
  }

  /** The order the script applies the changes in. */
  function SortedChanges(sps: seq<Splice>): (r: seq<Splice>)
    ensures multiset(r) == multiset(sps)
    ensures forall i, j :: 0 <= i < j < |r| ==> r[i].start >= r[j].start
  {
    IntKeyOrder(NegStart);
    SortSorted(sps, ByStartDescending());
    SortBy(sps, ByStartDescending())
  }

  /** The changes are applied from the bottom up, each range below the one before. */
  predicate Descending(n: nat, sps: seq<Splice>)
  {
    && (forall i :: 0 <= i < |sps| ==> sps[i].start < sps[i].end)
    && (forall i :: 0 < i < |sps| ==> sps[i].end <= sps[i - 1].start)
    && (sps != [] ==> sps[0].end <= n)
  }

  /**
   * The lines with each range of a descending list replaced by its content:
   * the text below the lowest range, then each content and the lines between
   * ranges, from the original lines.
   */
  function Layout(xs: seq<string>, sps: seq<Splice>): (r: seq<string>)
    requires Descending(|xs|, sps)
    ensures |r| == |xs| - Removed(sps)
    decreases |sps|
  {
    if sps == [] then xs
    else
      var x := sps[0];
      Layout(xs[..x.start], sps[1..]) + [x.content] + xs[x.end..]
  }

  /** The number of lines the splices remove: each range becomes one line. */
  function Removed(sps: seq<Splice>): int
  {
    if sps == [] then 0 else (sps[0].end - sps[0].start - 1) + Removed(sps[1..])
  }

  /** Splices that stay within `front` leave the lines after it alone. */
  lemma {:induction false} ApplyBelow(front: seq<string>, back: seq<string>, sps: seq<Splice>)
    requires Descending(|front|, sps)
    ensures ApplyAll(front + back, sps) == ApplyAll(front, sps) + back
    decreases |sps|
  {
    if sps != [] {
      var x := sps[0];
      var front' := Assign(front, x);
      assert front'[..x.start] == front[..x.start];
      assert Assign(front + back, x) == front' + back by {
        assert (front + back)[..x.start] == front[..x.start];
        assert (front + back)[x.end..] == front[x.end..] + back;
        assert front' == front[..x.start] + [x.content] + front[x.end..];
      }
      ApplyBelow(front', back, sps[1..]);
    }
  }

  /** Applied from the bottom up, the splices give the layout of the original lines. */
  lemma {:induction false} ApplyLayout(xs: seq<string>, sps: seq<Splice>)
    requires Descending(|xs|, sps)
    ensures ApplyAll(xs, sps) == Layout(xs, sps)
    decreases |sps|
  {
    if sps != [] {
      var x := sps[0];
      var front := xs[..x.start];
      var back := [x.content] + xs[x.end..];
      assert Descending(|front|, sps[1..]) by {
        DescendingTail(|xs|, sps);
      }
      FirstAssign(xs, sps);
      assert ApplyAll(front + back, sps[1..]) == ApplyAll(front, sps[1..]) + back by {
        ApplyBelow(front, back, sps[1..]);
      }
      assert ApplyAll(front, sps[1..]) == Layout(front, sps[1..]) by {
        ApplyLayout(front, sps[1..]);
      }
      LayoutFirst(xs, sps);
    }
  }

  /** Applying the splices starts with the first: the lines above it, its content, the lines below it. */
  lemma {:induction false} FirstAssign(xs: seq<string>, sps: seq<Splice>)
    requires sps != [] && sps[0].start < sps[0].end <= |xs|
    ensures ApplyAll(xs, sps)
            == ApplyAll(xs[..sps[0].start] + ([sps[0].content] + xs[sps[0].end..]), sps[1..])
  {
    var x := sps[0];
    assert Assign(xs, x) == xs[..x.start] + ([x.content] + xs[x.end..]);
  }

  /** The layout of a descending list: the layout above its first range, then that range's content and the rest. */
  lemma {:induction false} LayoutFirst(xs: seq<string>, sps: seq<Splice>)
    requires Descending(|xs|, sps) && sps != []
    ensures Layout(xs, sps)
            == Layout(xs[..sps[0].start], sps[1..]) + ([sps[0].content] + xs[sps[0].end..])
  {
    var x := sps[0];
    var l := Layout(xs[..x.start], sps[1..]);
    assert l + [x.content] + xs[x.end..] == l + ([x.content] + xs[x.end..]);
  }

  /** Below the first range, the rest of a descending list is descending. */
  lemma {:induction false} DescendingTail(n: nat, sps: seq<Splice>)
    requires Descending(n, sps) && sps != []
    ensures Descending(sps[0].start, sps[1..])
  {
    var t := sps[1..];
    assert forall i :: 0 <= i < |t| ==> t[i] == sps[i + 1];
  }

  /** A label line is neither blank nor a `dc` line. */
  lemma {:induction false} LabelLineStops(l: string)
    requires StartsWith(l, "byte_")
    ensures !Blank(l) && !DcStart(l)
  {
    assert l[0] == 'b';
    assert LeadingSpace(l) == 0;
  }

  /** Changes that cover their ranges and start on distinct lines, highest first, are descending. */
  lemma {:induction false} CoveringDescends(lines: seq<string>, sps: seq<Splice>)
    requires forall sp :: sp in sps ==> Covers(lines, sp)
    requires forall i :: 0 < i < |sps| ==> sps[i].start < sps[i - 1].start
    ensures Descending(|lines|, sps)
  {
    forall i | 0 < i < |sps|
      ensures sps[i].end <= sps[i - 1].start
    {
      var x, y := sps[i - 1], sps[i];
      assert Covers(lines, x) && Covers(lines, y);
      if x.start < y.end {
        LabelLineStops(lines[x.start]);
      }
    }
    forall i | 0 <= i < |sps|
      ensures sps[i].start < sps[i].end
    {
      assert Covers(lines, sps[i]);
    }
    if sps != [] {
      assert Covers(lines, sps[0]);
    }
  }

  /**
   * Of the changes sorted highest first, the first of each run with the same
   * first line: the change of the earliest address for that label, as the
   * sort is stable.
   */
  function FirstPerStart(sps: seq<Splice>): (r: seq<Splice>)
    requires forall i :: 0 < i < |sps| ==> sps[i].start <= sps[i - 1].start
    ensures forall x :: x in r ==> x in sps
    ensures forall i :: 0 < i < |r| ==> r[i].start < r[i - 1].start
    ensures sps != [] ==> r != [] && r[0] == sps[0]
    decreases |sps|
  {
    if |sps| <= 1 then sps
    else if sps[1].start == sps[0].start then
      var r := FirstPerStart([sps[0]] + sps[2..]);
      assert forall x :: x in sps ==> x == sps[0] || x == sps[1] || x in sps[2..];
      r
    else
      var rest := FirstPerStart(sps[1..]);
      [sps[0]] + rest
  }

  /**
   * The splice the script meant: each label replaced once, so every range is
   * taken from the original lines.
   */
  function ApplyChanges(lines: seq<string>, sps: seq<Splice>): (r: seq<string>)
    requires forall sp :: sp in sps ==> Covers(lines, sp)
    ensures var kept := FirstPerStart(SortedChanges(sps));
            Descending(|lines|, kept) && r == Layout(lines, kept)
  {
    var sorted := SortedChanges(sps);
    assert forall sp :: sp in sorted ==> sp in multiset(sps);
    var kept := FirstPerStart(sorted);
    CoveringDescends(lines, kept);
    ApplyLayout(lines, kept);
    ApplyAll(lines, kept)
  }

  /** The splice as written: every change applied, duplicates too. */
  function ApplyChangesAsWritten(lines: seq<string>, sps: seq<Splice>): seq<string>
  {
    ApplyAll(lines, SortedChanges(sps))
  }

  /** Sorted changes with distinct first lines are applied alike by both. */
  lemma {:induction false} DistinctAgree(lines: seq<string>, sps: seq<Splice>)
    requires forall sp :: sp in sps ==> Covers(lines, sp)
    requires forall i :: 0 < i < |SortedChanges(sps)| ==> SortedChanges(sps)[i].start != SortedChanges(sps)[i - 1].start
    ensures ApplyChangesAsWritten(lines, sps) == ApplyChanges(lines, sps)
  {
    FirstPerStartKeeps(SortedChanges(sps));
  }

  /** Nothing is dropped from changes whose first lines strictly descend. */
  lemma {:induction false} FirstPerStartKeeps(sps: seq<Splice>)
    requires forall i :: 0 < i < |sps| ==> sps[i].start < sps[i - 1].start
    ensures FirstPerStart(sps) == sps
    decreases |sps|
  {
    if |sps| > 1 {
      FirstPerStartKeeps(sps[1..]);
    }
  }

  /** The same label twice gives the same change twice. */
  lemma {:induction false} RepeatedAddress(lines: seq<string>, addr: string, o: Outcome)
    requires AllLines(lines) && Decide(lines, addr) == Ok(o) && o.Changes()
    ensures Changes(lines, [addr, addr]) == Ok([o.splice, o.splice])
  {
    ChangesSingle(lines, addr, o);
    ChangesCons(lines, addr, o, [addr], [o.splice]);
    assert [addr] + [addr] == [addr, addr];
    assert [o.splice] + [o.splice] == [o.splice, o.splice];
  }

  /** One address that makes a change gives that change alone. */
  lemma {:induction false} ChangesSingle(lines: seq<string>, addr: string, o: Outcome)
    requires AllLines(lines) && Decide(lines, addr) == Ok(o) && o.Changes()
    ensures Changes(lines, [addr]) == Ok([o.splice])
  {
    var none: seq<string> := [];
    var empty: seq<Splice> := [];
    ChangesCons(lines, addr, o, none, empty);
    assert [addr] + none == [addr];
    assert [o.splice] + empty == [o.splice];
  }

  /** `Changes` of a list with a first address whose decision succeeds. */
  lemma {:induction false} ChangesCons(lines: seq<string>, addr: string, o: Outcome, rest: seq<string>, sps: seq<Splice>)
    requires AllLines(lines) && Decide(lines, addr) == Ok(o) && Changes(lines, rest) == Ok(sps)
    ensures Changes(lines, [addr] + rest) == Ok((if o.Changes() then [o.splice] else []) + sps)
  {
    assert ([addr] + rest)[1..] == rest;
  }

  /**
   * Applied twice, an extraction of two or more lines with a line after it
   * replaces its own content together with lines that follow it: the script
   * as written loses lines the corrected splice keeps.
   */
  lemma {:induction false} DuplicateLosesLines(lines: seq<string>, sp: Splice)
    requires Covers(lines, sp) && sp.start + 2 <= sp.end < |lines|
    ensures |ApplyChangesAsWritten(lines, [sp, sp])| < |ApplyChanges(lines, [sp, sp])|
  {
    var sorted := SortedChanges([sp, sp]);
    assert multiset(sorted) == multiset{sp, sp};
    assert sorted == [sp, sp] by {
      assert |sorted| == 2;
      assert sorted[0] in multiset(sorted) && sorted[1] in multiset(sorted);
    }
    var once := Assign(lines, sp);
    assert ApplyAll(lines, [sp, sp]) == ApplyAll(once, [sp]) == Assign(once, sp);
    assert FirstPerStart(sorted) == [sp];
    assert Layout(lines, [sp]) == Layout(lines[..sp.start], []) + [sp.content] + lines[sp.end..];
  }

  /** No two sorted changes start on the same line: no label was named twice. */
  predicate DistinctStarts(sps: seq<Splice>)
  {
    forall i :: 0 < i < |sps| ==> sps[i].start != sps[i - 1].start
  }

  /** Both splices agree whenever no label is named twice. */
  lemma {:induction false} AgreeWhenDistinct(lines: seq<string>, sps: seq<Splice>)
    requires forall sp :: sp in sps ==> Covers(lines, sp)
    ensures DistinctStarts(SortedChanges(sps)) ==> ApplyChangesAsWritten(lines, sps) == ApplyChanges(lines, sps)
  {
    if DistinctStarts(SortedChanges(sps)) {
      DistinctAgree(lines, sps);
    }
  }

  /**
   * `main` on the lines of the source and the addresses, as written: the
   * changes of every address, against the unmodified lines, each spliced in
   * from the bottom up, duplicates included. Without a label named twice it
   * is the intended splice.
   */
  function ConvertTiles(lines: seq<string>, addrs: seq<string>): (r: Result<seq<string>, DcError>)
    requires AllLines(lines)
    ensures r.Ok? <==> forall k :: 0 <= k < |addrs| ==> Decide(lines, addrs[k]).Ok?
    ensures r.Ok? && DistinctStarts(SortedChanges(Changes(lines, addrs).value)) ==> r == ConvertTilesIntended(lines, addrs)
  {
    match Changes(lines, addrs)
    case Err(e) => Err(e)
    case Ok(sps) =>
      AgreeWhenDistinct(lines, sps);
      Ok(ApplyChangesAsWritten(lines, sps))
  }

  /**
   * `main` as intended: each label replaced once, every range taken from the
   * original lines and spliced in from the bottom up.
   */
  function ConvertTilesIntended(lines: seq<string>, addrs: seq<string>): (r: Result<seq<string>, DcError>)
    requires AllLines(lines)
    ensures r.Ok? <==> forall k :: 0 <= k < |addrs| ==> Decide(lines, addrs[k]).Ok?
    ensures r.Ok? ==> var kept := FirstPerStart(SortedChanges(Changes(lines, addrs).value));
                      Descending(|lines|, kept) && r.value == Layout(lines, kept)
  {
    match Changes(lines, addrs)
    case Err(e) => Err(e)
    case Ok(sps) => Ok(ApplyChanges(lines, sps))
  }

  /**
   * An address listed twice whose label opens a block of two or more lines
   * with a line after it: the script as written returns fewer lines than the
   * intended splice.
   */
  lemma {:induction false} ConvertTilesRepeated(lines: seq<string>, addr: string, o: Outcome)
    requires AllLines(lines) && Decide(lines, addr) == Ok(o) && o.Changes()
    requires o.splice.start + 2 <= o.splice.end < |lines|
    ensures ConvertTiles(lines, [addr, addr]).Ok? && ConvertTilesIntended(lines, [addr, addr]).Ok?
    ensures |ConvertTiles(lines, [addr, addr]).value| < |ConvertTilesIntended(lines, [addr, addr]).value|
  {
    RepeatedAddress(lines, addr, o);
    assert o.splice in [o.splice, o.splice];
    DuplicateLosesLines(lines, o.splice);
  }
}
