/**
 * `parse_dc_line` of scripts/split_data.py and scripts/convert_tiles.py: a
 * source line holding a `dc.b`/`dc.w`/`dc.l` directive becomes the bytes of
 * its comma-separated values.
 *
 * The two copies differ only in what may stand before the directive:
 * whitespace (`^\s*`) in split_data, any text without a `;` (`^[^;]*?`) in
 * convert_tiles. The regular expressions are modelled as scanners over the
 * line without its final newline; a line read with `readlines()` has no other
 * newline, and on such lines the patterns match the same way with or without
 * it.
 */
module DcLines {
  import opened Results
  import opened Bytes
  import opened Text
  import opened Numerals
  import opened DcValues

  /** A line as `readlines()` yields it: a newline, if any, only at the end. */
  predicate IsLine(line: string)
  {
    '\n' !in Chomp(line)
  }

  /** The line without its final newline. */
  function Chomp(line: string): (c: string)
    ensures line == c || line == c + "\n"
  {
    if line != [] && line[|line| - 1] == '\n' then line[..|line| - 1] else line
  }

  /** The rest of a line from index `k` on is a line too. */
  lemma {:induction false} SuffixIsLine(line: string, k: nat)
    requires IsLine(line) && k <= |line|
    ensures IsLine(line[k..])
  {
    var c := Chomp(line);
    if line == c + "\n" && k < |line| {
      assert line[k..] == c[k..] + "\n";
      assert Chomp(line[k..]) == c[k..];
    } else if k < |line| {
      assert line == c;
      assert line[|line| - 1] != '\n';
      assert Chomp(line[k..]) == c[k..];
    }
  }

  /** Stripping a line leaves a line: the newline it may end with is whitespace. */
  lemma {:induction false} StripIsLine(s: string)
    requires IsLine(s)
    ensures IsLine(Strip(s))
  {
    var r := Strip(s);
    if r != [] {
      var a := LeadingSpace(s);
      assert r == s[a..StripEnd(s)];
      assert Chomp(r) == r;
      var c := Chomp(s);
      forall i | 0 <= i < |r|
        ensures r[i] != '\n'
      {
        assert r[i] == s[a + i];
        if s == c + "\n" {
          assert a + |r| - 1 < |c|;
          assert s[a + i] == c[a + i];
        } else {
          assert s[a + i] == c[a + i];
        }
      }
    }
  }

  /** The two spellings of the directive pattern. */
  datatype Prefix =
    | SpacePrefix          // split_data: `^\s*(dc\.[bwl])\s+...`
    | SemicolonFreePrefix  // convert_tiles: `^[^;]*?(dc\.[bwl])\s+...`

  /** A matched directive: its size and the text of the values group. */
  datatype Directive = Directive(size: DcSize, values: string)

  /** The size named by the letter after `dc.`, in either case. */
  function SizeLetter(c: char): Option<DcSize>
  {
    if c == 'b' || c == 'B' then Some(B)
    else if c == 'w' || c == 'W' then Some(W)
    else if c == 'l' || c == 'L' then Some(L)
    else None
  }

  /** `dc\.[bwl]` under `re.IGNORECASE` matches at index `p`. */
  predicate DirectiveAt(c: string, p: nat)
  {
    && p + 4 <= |c|
    && SameIgnoringCase(c[p], 'd') && SameIgnoringCase(c[p + 1], 'c') && c[p + 2] == '.'
    && SizeLetter(c[p + 3]).Some?
  }

  /** The trailing `(?:\s*;.*)?$` matches all of `t`: nothing, or a comment. */
  predicate CommentOrEnd(t: string)
  {
    t == [] || (LeadingSpace(t) < |t| && t[LeadingSpace(t)] == ';')
  }

  /**
   * The lazy `(.+?)` on `r`: the shortest non-empty prefix from `n` on whose
   * rest is a comment or nothing.
   */
  function LazyEnd(r: string, n: nat): (e: nat)
    requires 1 <= n <= |r|
    ensures n <= e <= |r| && CommentOrEnd(r[e..])
    ensures forall k :: n <= k < e ==> !CommentOrEnd(r[k..])
    decreases |r| - n
  {
    if CommentOrEnd(r[n..]) then n else LazyEnd(r, n + 1)
  }

  /**
   * `\s+(.+?)(?:\s*;.*)?$` on the text `a` after `dc.x`. The greedy `\s+`
   * takes all the whitespace; the values group is then the shortest text
   * before a comment or the end. When only whitespace follows, `\s+` gives
   * back its last character to the values group, which needs two.
   */
  function ValuesGroup(a: string): (v: Option<string>)
    ensures v.Some? ==> v.value != []
    ensures v.None? <==> LeadingSpace(a) == 0 || (LeadingSpace(a) == |a| && |a| < 2)
  {
    var m := LeadingSpace(a);
    if m == 0 then None
    else if m < |a| then
      var r := a[m..];
      Some(r[..LazyEnd(r, 1)])
    else if m >= 2 then Some([a[m - 1]])
    else None
  }

  /** The whole pattern, with its directive at index `p`. */
  function MatchAt(c: string, p: nat): (d: Option<Directive>)
    ensures d.Some? ==> DirectiveAt(c, p)
  {
    if DirectiveAt(c, p) then
      match ValuesGroup(c[p + 4..])
      case None => None
      case Some(v) => Some(Directive(SizeLetter(c[p + 3]).value, v))
    else None
  }

  /** `^\s*`: whitespace cannot spell `dc.`, so the directive follows all of it. */
  function MatchLeadingSpace(c: string): Option<Directive>
  {
    MatchAt(c, LeadingSpace(c))
  }

  /**
   * `^[^;]*?` from index `p` on: the first directive position whose whole
   * pattern matches, looking no further than the first `;`.
   */
  function MatchNoSemicolonFrom(c: string, p: nat): (d: Option<Directive>)
    requires p <= |c|
    ensures d.None? ==> forall q :: p <= q <= |c| && ';' !in c[p..q] ==> MatchAt(c, q).None?
    ensures d.Some? ==> exists q :: p <= q <= |c| && ';' !in c[p..q] && MatchAt(c, q) == d
    decreases |c| - p
  {
    if MatchAt(c, p).Some? then
      assert c[p..p] == [];
      MatchAt(c, p)
    else if p == |c| || c[p] == ';' then
      assert forall q :: p < q <= |c| ==> c[p..q][0] == c[p];
      None
    else
      var d := MatchNoSemicolonFrom(c, p + 1);
      assert forall q :: p < q <= |c| ==> c[p..q] == [c[p]] + c[p + 1..q];
      d
  }

  /** The directive the chosen pattern finds in the line, if any. */
  function MatchLine(c: string, prefix: Prefix): Option<Directive>
  {
    match prefix
    case SpacePrefix => MatchLeadingSpace(c)
    case SemicolonFreePrefix => MatchNoSemicolonFrom(c, 0)
  }

  /** Past a position that is no match and no `;`, the search goes on at the next one. */
  lemma {:induction false} NoSemicolonStep(c: string, p: nat)
    requires p < |c| && MatchAt(c, p).None? && c[p] != ';'
    ensures MatchNoSemicolonFrom(c, p) == MatchNoSemicolonFrom(c, p + 1)
  {
  }

  /** Leading whitespace holds no directive and no `;`, so both patterns agree when `^\s*` matches. */
  lemma {:induction false} LeadingSpaceIsNoSemicolon(c: string, p: nat)
    requires p <= LeadingSpace(c)
    requires MatchLeadingSpace(c).Some?
    ensures MatchNoSemicolonFrom(c, p) == MatchLeadingSpace(c)
    decreases LeadingSpace(c) - p
  {
    if p < LeadingSpace(c) {
      assert IsSpace(c[p]);
      assert !DirectiveAt(c, p);
      NoSemicolonStep(c, p);
      LeadingSpaceIsNoSemicolon(c, p + 1);
    }
  }

  /** Where split_data's pattern matches, convert_tiles' pattern finds the same directive. */
  lemma {:induction false} PatternsAgree(c: string)
    requires MatchLine(c, SpacePrefix).Some?
    ensures MatchLine(c, SemicolonFreePrefix) == MatchLine(c, SpacePrefix)
  {
    LeadingSpaceIsNoSemicolon(c, 0);
  }

  /** A value the line-splitting loop keeps: non-empty and stripped. */
  predicate IsItem(x: string)
  {
    x != [] && !IsSpace(x[0]) && !IsSpace(x[|x| - 1])
  }

  /** `current.strip()` appended when it is non-empty. */
  function Flush(current: string): (r: seq<string>)
    ensures |r| <= 1 && forall k :: 0 <= k < |r| ==> IsItem(r[k])
  {
    var t := Strip(current);
    if t == [] then [] else [t]
  }

  /**
   * The items the splitting loop keeps from index `i` of `s` (the values text
   * with a `,` appended) on: `current` is the item being built and `quote` the
   * open quote character. A comma outside quotes ends an item; the quotes stay
   * in the item's text.
   */
  function SplitFrom(s: string, i: nat, current: string, quote: Option<char>): (r: seq<string>)
    requires i <= |s|
    ensures forall k :: 0 <= k < |r| ==> IsItem(r[k])
    decreases |s| - i
  {
    if i == |s| then []
    else
      var ch := s[i];
      if IsQuote(ch) && quote.None? then SplitFrom(s, i + 1, current + [ch], Some(ch))
      else if quote == Some(ch) then SplitFrom(s, i + 1, current + [ch], None)
      else if ch == ',' && quote.None? then Flush(current) + SplitFrom(s, i + 1, [], None)
      else SplitFrom(s, i + 1, current + [ch], quote)
  }

  /** The values of a directive, split on commas outside quotes, stripped, empty ones dropped. */
  function SplitItems(values: string): (r: seq<string>)
    ensures forall k :: 0 <= k < |r| ==> IsItem(r[k])
  {
    SplitFrom(values + [','], 0, [], None)
  }

  /** The stripped non-empty pieces, in order: the reference for text without quotes. */
  function Clean(pieces: seq<string>): seq<string>
  {
    if pieces == [] then [] else Flush(pieces[0]) + Clean(pieces[1..])
  }

  /** Text with no quote character. */
  predicate QuoteFree(s: string)
  {
    '\'' !in s && '"' !in s
  }

  /** The comma pieces of text that starts with a comma-free `current` and a comma. */
  lemma {:induction false} SplitAtComma(current: string, t: string)
    requires ',' !in current && t != [] && t[0] == ','
    ensures Split(current + t, ',') == [current] + Split(t[1..], ',')
  {
    assert current + t == current + [','] + t[1..];
    SplitCons(current, t[1..], ',');
  }

  lemma {:induction false} CleanCons(x: string, xs: seq<string>)
    ensures Clean([x] + xs) == Flush(x) + Clean(xs)
  {
    assert ([x] + xs)[1..] == xs;
  }

  lemma {:induction false} CleanSingle(x: string)
    ensures Clean([x]) == Flush(x)
  {
    assert [x][1..] == [];
    var f := Flush(x);
    assert f + [] == f;
  }

  lemma {:induction false} ConcatAssoc<T>(a: seq<T>, b: seq<T>, c: seq<T>)
    ensures (a + b) + c == a + (b + c)
  {
  }

  /** One step of the loop on a comma outside quotes: the item so far is flushed. */
  lemma {:induction false} SplitFromComma(s: string, i: nat, current: string)
    requires i < |s| && s[i] == ','
    ensures SplitFrom(s, i, current, None) == Flush(current) + SplitFrom(s, i + 1, [], None)
  {
  }

  /** One step of the loop on a character that is no quote and no comma. */
  lemma {:induction false} SplitFromPlain(s: string, i: nat, current: string)
    requires i < |s| && !IsQuote(s[i]) && s[i] != ','
    ensures SplitFrom(s, i, current, None) == SplitFrom(s, i + 1, current + [s[i]], None)
  {
  }

  /** The loop at the appended comma: the last item is flushed. */
  lemma {:induction false} QuoteFreeEnd(body: string, current: string)
    requires ',' !in current
    ensures SplitFrom(body + [','], |body|, current, None) == Clean(Split(current + body[|body|..], ','))
  {
    var s := body + [','];
    var f := Flush(current);
    SplitFromComma(s, |body|, current);
    assert SplitFrom(s, |body| + 1, [], None) == [];
    assert f + [] == f;
    assert current + body[|body|..] == current;
    assert Split(current, ',') == [current];
    CleanSingle(current);
  }

  /** The loop at a comma of the values: the item so far is flushed and a new one begins. */
  lemma {:induction false} QuoteFreeComma(body: string, i: nat, current: string)
    requires i < |body| && body[i] == ',' && ',' !in current
    requires SplitFrom(body + [','], i + 1, [], None) == Clean(Split([] + body[i + 1..], ','))
    ensures SplitFrom(body + [','], i, current, None) == Clean(Split(current + body[i..], ','))
  {
    var s := body + [','];
    var rest := body[i + 1..];
    var f := Flush(current);
    var tail := Clean(Split(rest, ','));
    SplitFromComma(s, i, current);
    assert [] + rest == rest;
    assert SplitFrom(s, i, current, None) == f + tail;
    SplitAtComma(current, body[i..]);
    assert body[i..][1..] == rest;
    CleanCons(current, Split(rest, ','));
    assert Clean(Split(current + body[i..], ',')) == f + tail;
  }

  /** The loop at any other character of quote-free values: it joins the current item. */
  lemma {:induction false} QuoteFreePlain(body: string, i: nat, current: string)
    requires i < |body| && body[i] != ',' && !IsQuote(body[i])
    requires SplitFrom(body + [','], i + 1, current + [body[i]], None)
             == Clean(Split((current + [body[i]]) + body[i + 1..], ','))
    ensures SplitFrom(body + [','], i, current, None) == Clean(Split(current + body[i..], ','))
  {
    var s := body + [','];
    assert s[i] == body[i];
    SplitFromPlain(s, i, current);
    assert body[i..] == [body[i]] + body[i + 1..];
    ConcatAssoc(current, [body[i]], body[i + 1..]);
    assert current + body[i..] == (current + [body[i]]) + body[i + 1..];
  }

  /** Without quotes, the loop from `i` on yields the cleaned comma pieces of the rest. */
  lemma {:induction false} SplitFromQuoteFree(body: string, i: nat, current: string)
    requires i <= |body| && QuoteFree(body) && ',' !in current
    ensures SplitFrom(body + [','], i, current, None) == Clean(Split(current + body[i..], ','))
    decreases |body| - i
  {
    if i == |body| {
      QuoteFreeEnd(body, current);
    } else if body[i] == ',' {
      SplitFromQuoteFree(body, i + 1, []);
      QuoteFreeComma(body, i, current);
    } else {
      assert body[i] != '\'' && body[i] != '"';
      SplitFromQuoteFree(body, i + 1, current + [body[i]]);
      QuoteFreePlain(body, i, current);
    }
  }

  /** Without quotes, the items are exactly the stripped non-empty pieces of `values.split(',')`. */
  lemma {:induction false} QuoteFreeItems(values: string)
    requires QuoteFree(values)
    ensures SplitItems(values) == Clean(Split(values, ','))
  {
    SplitFromQuoteFree(values, 0, []);
    assert [] + values[0..] == values;
  }

  /** Inside quotes nothing but the closing quote changes the state: commas are kept. */
  lemma {:induction false} QuotedSpan(s: string, i: nat, j: nat, current: string, q: char)
    requires i <= j <= |s|
    requires forall k :: i <= k < j ==> s[k] != q
    ensures SplitFrom(s, i, current, Some(q)) == SplitFrom(s, j, current + s[i..j], Some(q))
    decreases j - i
  {
    if i == j {
      assert current + s[i..j] == current;
    } else {
      QuotedSpan(s, i + 1, j, current + [s[i]], q);
      assert (current + [s[i]]) + s[i + 1..j] == current + s[i..j];
    }
  }

  /** A quoted value is one item, commas and all. */
  lemma {:induction false} QuotedItem(t: string, q: char)
    requires IsQuote(q) && q !in t
    ensures SplitItems([q] + t + [q]) == [[q] + t + [q]]
  {
    var item := [q] + t + [q];
    var s := item + [','];
    var n := |t|;
    assert s[0] == q;
    forall k | 1 <= k < n + 1
      ensures s[k] != q
    {
      assert s[k] == t[k - 1];
    }
    assert [] + [q] == [q];
    assert SplitFrom(s, 0, [], None) == SplitFrom(s, 1, [q], Some(q));
    QuotedSpan(s, 1, n + 1, [q], q);
    assert s[1..n + 1] == t;
    assert s[n + 1] == q && s[n + 2] == ',' && |s| == n + 3;
    assert SplitFrom(s, n + 1, [q] + t, Some(q)) == SplitFrom(s, n + 2, item, None);
    assert SplitFrom(s, n + 2, item, None) == Flush(item) + SplitFrom(s, n + 3, [], None);
    assert IsItem(item);
    StripOfStripped(item);
    assert Flush(item) == [item];
  }

  /** `parse_dc_value` at size `sz`, as a function of the value's text. */
  function ValueParser(sz: DcSize): (f: string -> Parsed)
    ensures forall v :: f(v) == ParseDcValue(v, sz)
  {
    v => ParseDcValue(v, sz)
  }

  /** `f` applied to each item, in order. */
  function MapItems(items: seq<string>, f: string -> Parsed): (ps: seq<Parsed>)
    ensures |ps| == |items|
    ensures forall k :: 0 <= k < |items| ==> ps[k] == f(items[k])
  {
    seq(|items|, k requires 0 <= k < |items| => f(items[k]))
  }

  lemma {:induction false} MapItemsAppend(xs: seq<string>, ys: seq<string>, f: string -> Parsed)
    ensures MapItems(xs + ys, f) == MapItems(xs, f) + MapItems(ys, f)
  {
  }

  /** A value that gives bytes. */
  predicate IsData(p: Parsed)
  {
    p.Ok? && p.value.Some?
  }

  /** Outcomes taken in order: the concatenation of their bytes, or the first that is not data. */
  function Gather(ps: seq<Parsed>): (r: Parsed)
    ensures IsData(r) <==> forall k :: 0 <= k < |ps| ==> IsData(ps[k])
    ensures !IsData(r) ==> r in ps
  {
    if ps == [] then Ok(Some([]))
    else if !IsData(ps[0]) then ps[0]
    else
      var rest := Gather(ps[1..]);
      assert forall k :: 1 <= k < |ps| ==> ps[k] == ps[1..][k - 1];
      if IsData(rest) then Ok(Some(ps[0].value.value + rest.value.value)) else rest
  }

  /** Parsing two runs of values one after the other: bytes concatenate, the first failure wins. */
  function Then(first: Parsed, second: Parsed): Parsed
  {
    if !IsData(first) then first
    else if !IsData(second) then second
    else Ok(Some(first.value.value + second.value.value))
  }

  /** Outcomes are gathered left to right and their bytes concatenated in order. */
  lemma {:induction false} GatherAppend(ps: seq<Parsed>, qs: seq<Parsed>)
    ensures Gather(ps + qs) == Then(Gather(ps), Gather(qs))
  {
    if ps == [] {
      assert ps + qs == qs;
      if IsData(Gather(qs)) {
        assert [] + Gather(qs).value.value == Gather(qs).value.value;
      }
    } else {
      assert (ps + qs)[0] == ps[0];
      assert (ps + qs)[1..] == ps[1..] + qs;
      GatherAppend(ps[1..], qs);
      if IsData(ps[0]) && IsData(Gather(ps[1..])) && IsData(Gather(qs)) {
        var a, b, c := ps[0].value.value, Gather(ps[1..]).value.value, Gather(qs).value.value;
        assert a + (b + c) == (a + b) + c;
      }
    }
  }

  /** The values of a directive parsed in order, as `parse_dc_line`'s loop does. */
  function ParseValues(items: seq<string>, sz: DcSize): (r: Parsed)
    ensures IsData(r) <==> forall k :: 0 <= k < |items| ==> IsData(ParseDcValue(items[k], sz))
  {
    Gather(MapItems(items, ValueParser(sz)))
  }

  /** Values are parsed left to right and their bytes concatenated in order. */
  lemma {:induction false} ParseValuesAppend(xs: seq<string>, ys: seq<string>, sz: DcSize)
    ensures ParseValues(xs + ys, sz) == Then(ParseValues(xs, sz), ParseValues(ys, sz))
  {
    var f := ValueParser(sz);
    MapItemsAppend(xs, ys, f);
    GatherAppend(MapItems(xs, f), MapItems(ys, f));
  }

  /**
   * `parse_dc_line`: `None` when the line is no directive, when a value is not
   * data, or when the values give no bytes at all; otherwise the bytes.
   */
  function ParseDcLine(line: string, prefix: Prefix): (r: Parsed)
    requires IsLine(line)
    ensures MatchLine(Chomp(line), prefix).None? ==> r == Ok(None)
    ensures IsData(r) ==> r.value.value != []
    ensures IsData(r) ==> var d := MatchLine(Chomp(line), prefix).value;
              forall k :: 0 <= k < |SplitItems(d.values)| ==> IsData(ParseDcValue(SplitItems(d.values)[k], d.size))
  {
    match MatchLine(Chomp(line), prefix)
    case None => Ok(None)
    case Some(d) =>
      var r := ParseValues(SplitItems(d.values), d.size);
      if IsData(r) && r.value.value == [] then Ok(None) else r
  }

  /**
   * `parse_dc_line` as a function on text: it is only ever given lines of a
   * file, or the text after a line's label, which are lines too.
   */
  function DcLineParser(prefix: Prefix): (f: string -> Parsed)
    ensures forall line :: IsLine(line) ==> f(line) == ParseDcLine(line, prefix)
  {
    line => if IsLine(line) then ParseDcLine(line, prefix) else Ok(None)
  }

  /** A byte written as the disassembly writes data: `$` and upper-case hex digits. */
  function ByteToken(b: byte): string
  {
    "$" + Hex(b)
  }

  function ByteTokens(bs: seq<byte>): (ts: seq<string>)
    ensures |ts| == |bs|
    ensures forall k :: 0 <= k < |bs| ==> ts[k] == ByteToken(bs[k])
  {
    seq(|bs|, k requires 0 <= k < |bs| => ByteToken(bs[k]))
  }

  /** A `dc.b` line listing the bytes, tab-indented and comma-separated. */
  function RenderDcLine(bs: seq<byte>): string
  {
    "\tdc.b\t" + Join(ByteTokens(bs), ",")
  }

  /** The characters a byte token is made of. */
  predicate TokenChar(c: char)
  {
    c == '$' || IsDigit(c) || 'A' <= c <= 'F' || 'a' <= c <= 'f'
  }

  lemma {:induction false} ByteTokenShape(b: byte)
    ensures var t := ByteToken(b);
            t[0] == '$' && IsItem(t) && forall i :: 0 <= i < |t| ==> TokenChar(t[i])
  {
    var h := Hex(b);
    var t := "$" + h;
    forall i | 0 <= i < |t|
      ensures TokenChar(t[i])
    {
      if i > 0 {
        assert t[i] == h[i - 1] && IsDigitIn(h[i - 1], 16);
      }
    }
    assert TokenChar(t[|t| - 1]);
  }

  /** No byte token holds `c`, and neither does the `,` between them. */
  lemma {:induction false} TokensAvoid(bs: seq<byte>, c: char)
    requires !TokenChar(c) && c != ','
    ensures c !in Join(ByteTokens(bs), ",")
  {
    var ts := ByteTokens(bs);
    forall k | 0 <= k < |ts|
      ensures c !in ts[k]
    {
      ByteTokenShape(bs[k]);
    }
    JoinAvoids(ts, ",", c);
  }

  /** Without a `;`, the lazy values group runs to the end of the text. */
  lemma {:induction false} LazyEndWithoutComment(r: string)
    requires 1 <= |r| && ';' !in r
    ensures LazyEnd(r, 1) == |r|
  {
  }

  /** Leading whitespace of one character. */
  lemma {:induction false} OneLeadingSpace(s: string)
    requires |s| >= 2 && IsSpace(s[0]) && !IsSpace(s[1])
    ensures LeadingSpace(s) == 1
  {
  }

  /** The rendered line matches with the directive `dc.b` and the joined tokens as its values. */
  lemma {:induction false} RenderMatches(bs: seq<byte>)
    requires bs != []
    ensures MatchLine(RenderDcLine(bs), SpacePrefix) == Some(Directive(B, Join(ByteTokens(bs), ",")))
  {
    var ts := ByteTokens(bs);
    var j := Join(ts, ",");
    var line := RenderDcLine(bs);
    ByteTokenShape(bs[0]);
    JoinStarts(ts, ",");
    assert line[0] == '\t' && line[1] == 'd';
    OneLeadingSpace(line);
    assert DirectiveAt(line, 1);
    assert line[5..] == "\t" + j;
    TokensAvoid(bs, ';');
    TabbedValues(j);
    assert SizeLetter(line[4]) == Some(B);
    assert MatchAt(line, 1) == Some(Directive(B, j));
  }

  /** A tab, then text without `;` that starts with `$`: the values group is that text. */
  lemma {:induction false} TabbedValues(j: string)
    requires j != [] && j[0] == '$' && ';' !in j
    ensures ValuesGroup("\t" + j) == Some(j)
  {
    var a := "\t" + j;
    assert a[1] == '$';
    OneLeadingSpace(a);
    assert a[1..] == j;
    LazyEndWithoutComment(j);
    assert j[..|j|] == j;
  }

  /** Stripped non-empty pieces are kept as they are. */
  lemma {:induction false} CleanItems(xs: seq<string>)
    requires forall k :: 0 <= k < |xs| ==> IsItem(xs[k])
    ensures Clean(xs) == xs
  {
    if xs != [] {
      StripOfStripped(xs[0]);
      assert Flush(xs[0]) == [xs[0]];
      CleanItems(xs[1..]);
      CleanCons(xs[0], xs[1..]);
      assert [xs[0]] + xs[1..] == xs;
    }
  }

  /** The values text of a rendered line splits into its byte tokens. */
  lemma {:induction false} RenderItems(bs: seq<byte>)
    requires bs != []
    ensures SplitItems(Join(ByteTokens(bs), ",")) == ByteTokens(bs)
  {
    var ts := ByteTokens(bs);
    TokensAvoid(bs, '\'');
    TokensAvoid(bs, '"');
    QuoteFreeItems(Join(ts, ","));
    forall k | 0 <= k < |ts|
      ensures ',' !in ts[k] && IsItem(ts[k])
    {
      ByteTokenShape(bs[k]);
    }
    SplitJoin(ts, ',');
    CleanItems(ts);
  }

  lemma {:induction false} GatherSingle(p: Parsed)
    ensures Gather([p]) == p
  {
    if IsData(p) {
      assert [p][1..] == [];
      assert p.value.value + [] == p.value.value;
    }
  }

  /** A single value parses to what the value alone parses to. */
  lemma {:induction false} ParseValuesSingle(v: string, sz: DcSize)
    ensures ParseValues([v], sz) == ParseDcValue(v, sz)
  {
    var f := ValueParser(sz);
    assert MapItems([v], f) == [f(v)];
    GatherSingle(f(v));
  }

  /** The byte tokens parse back to the bytes. */
  lemma {:induction false} TokensParse(bs: seq<byte>)
    ensures ParseValues(ByteTokens(bs), B) == Ok(Some(bs))
  {
    var f := ValueParser(B);
    forall b: byte
      ensures f(ByteToken(b)) == Ok(Some([b]))
    {
      HexByte(b);
    }
    GatherTokens(bs, f);
  }

  /** Gathering the tokens of `bs`, each read back as its byte, gives `bs`. */
  lemma {:induction false} GatherTokens(bs: seq<byte>, f: string -> Parsed)
    requires forall b: byte :: f(ByteToken(b)) == Ok(Some([b]))
    ensures Gather(MapItems(ByteTokens(bs), f)) == Ok(Some(bs))
  {
    var ps := MapItems(ByteTokens(bs), f);
    if bs == [] {
      assert ps == [];
    } else {
      var qs := MapItems(ByteTokens(bs[1..]), f);
      assert ps[1..] == qs by {
        forall k | 0 <= k < |qs|
          ensures ps[1..][k] == qs[k]
        {
          assert bs[1..][k] == bs[k + 1];
        }
      }
      GatherTokens(bs[1..], f);
      assert ps[0] == Ok(Some([bs[0]]));
      assert [bs[0]] + bs[1..] == bs;
    }
  }

  /**
   * A `dc.b` line written from non-empty bytes, read back as a line of the
   * file, gives the bytes again, whichever pattern reads it.
   */
  lemma {:induction false} RenderRoundTrip(bs: seq<byte>, prefix: Prefix)
    requires bs != []
    ensures IsLine(RenderDcLine(bs) + "\n")
    ensures ParseDcLine(RenderDcLine(bs) + "\n", prefix) == Ok(Some(bs))
  {
    var line := RenderDcLine(bs);
    var j := Join(ByteTokens(bs), ",");
    assert Chomp(line + "\n") == line;
    TokensAvoid(bs, '\n');
    assert '\n' !in line;
    RenderMatches(bs);
    PatternsAgree(line);
    RenderItems(bs);
    TokensParse(bs);
  }
}
