/**
 * The data helpers of asm_fixer.py: reading the numbers of an IDA listing,
 * packing the values of a `BIN_START` block into bytes by field size,
 * rewriting `dcb.b` directives, and cutting the listing down to the ROM
 * segment.
 *
 * asm_fixer.py is Python 2 code (it builds binary data in `str` values and
 * writes them in text mode), so `int()` here is Python 2's: the same as
 * Python 3's except that underscores between digits are not accepted.
 * Regular-expression character classes are ASCII.
 */
module AsmFixer {
  import opened Results
  import opened Bytes
  import opened Text
  import opened Numerals
  import opened Arithmetic
  import opened Seqs

  // ---------------------------------------------------------------------------
  // Numbers
  // ---------------------------------------------------------------------------

  /** Python 2's `int(s, base)`: Python 3's, without digit-group underscores. */
  function Py2Int(s: string, base: nat): (r: Option<int>)
    requires ValidBase(base)
    ensures '_' in s ==> r.None?
  {
    if '_' in s then None else PyInt(s, base)
  }

  /**
   * `parse_array_int`: `$` and hex digits, `%` and binary digits, or a decimal
   * number. `None` stands for the `ValueError` callers catch; the text must
   * not be empty, as indexing its first character would raise.
   */
  function ParseArrayInt(m: string): (r: Option<int>)
    requires m != []
  {
    if m[0] == '$' then Py2Int(m[1..], 16)
    else if m[0] == '%' then Py2Int(m[1..], 2)
    else Py2Int(m, 10)
  }

  /** An upper-case hexadecimal digit, `[0-9A-F]`. */
  predicate IsUpperHex(c: char)
  {
    IsDigit(c) || 'A' <= c <= 'F'
  }

  /** A binary digit, `[0-1]`. */
  predicate IsBit(c: char)
  {
    c == '0' || c == '1'
  }

  predicate AllUpperHex(s: string)
  {
    forall i :: 0 <= i < |s| ==> IsUpperHex(s[i])
  }

  predicate AllBits(s: string)
  {
    forall i :: 0 <= i < |s| ==> IsBit(s[i])
  }

  predicate AllDecimal(s: string)
  {
    forall i :: 0 <= i < |s| ==> IsDigit(s[i])
  }

  predicate AllWord(s: string)
  {
    forall i :: 0 <= i < |s| ==> IsWordChar(s[i])
  }

  /** The four token shapes of the listing's number pattern. */
  predicate HexToken(t: string)
  {
    |t| >= 2 && t[0] == '$' && AllUpperHex(t[1..])
  }

  predicate DecimalToken(t: string)
  {
    t != [] && AllDecimal(t)
  }

  predicate BinaryToken(t: string)
  {
    |t| >= 2 && t[0] == '%' && AllBits(t[1..])
  }

  /** A name: word characters, not starting with a digit (a digit would start a number). */
  predicate WordToken(t: string)
  {
    t != [] && AllWord(t) && !IsDigit(t[0])
  }

  /** An ASCII digit string is a digit string of any radix above ten. */
  lemma {:induction false} DecimalDigits(s: string, base: nat)
    requires AllDecimal(s) && 10 <= base <= 16
    ensures AllDigitsIn(s, base)
  {
  }

  /** Each number shape reads as the value of its digits. */
  lemma {:induction false} NumberTokenValues(t: string)
    ensures HexToken(t) ==> AllDigitsIn(t[1..], 16) && ParseArrayInt(t) == Some(DigitsValue(t[1..], 16))
    ensures DecimalToken(t) ==> AllDigitsIn(t, 10) && ParseArrayInt(t) == Some(DigitsValue(t, 10))
    ensures BinaryToken(t) ==> AllDigitsIn(t[1..], 2) && ParseArrayInt(t) == Some(DigitsValue(t[1..], 2))
  {
    if HexToken(t) {
      PyIntOfDigits(t[1..], 16);
    }
    if DecimalToken(t) {
      DecimalDigits(t, 10);
      PyIntOfDigits(t, 10);
    }
    if BinaryToken(t) {
      assert AllDigitsIn(t[1..], 2);
      PyIntOfDigits(t[1..], 2);
    }
  }

  /** A name is not a number: `parse_array_int` raises on it. */
  lemma {:induction false} WordTokenRaises(t: string)
    requires WordToken(t)
    ensures ParseArrayInt(t).None?
  {
    assert !IsSpace(t[0]) && t[0] != '-' && t[0] != '+';
    assert Strip(t)[0] == t[0] by {
      assert LeadingSpace(t) == 0;
    }
  }

  /** `'$%X' % n` reads back as `n`. */
  lemma {:induction false} HexRoundTrip(n: nat)
    ensures ParseArrayInt("$" + Hex(n)) == Some(n)
  {
    var h := Hex(n);
    assert ("$" + h)[1..] == h;
    assert '_' !in h by {
      forall i | 0 <= i < |h|
        ensures h[i] != '_'
      {
        assert IsDigitIn(h[i], 16);
      }
    }
    PyIntOfDigits(h, 16);
  }

  // ---------------------------------------------------------------------------
  // `((?:\$[0-9A-F]+)|(?:[0-9]+)|(?:%[0-1]+)|(?:\w+))`, found all
  // ---------------------------------------------------------------------------

  /** The character classes the alternatives repeat. */
  datatype CharClass = UpperHexClass | DecimalClass | BitClass | WordClass

  predicate InClass(c: char, cls: CharClass)
  {
    match cls
    case UpperHexClass => IsUpperHex(c)
    case DecimalClass => IsDigit(c)
    case BitClass => IsBit(c)
    case WordClass => IsWordChar(c)
  }

  /** The length of the longest run of `cls` characters from index `i`. */
  function Run(s: string, i: nat, cls: CharClass): (n: nat)
    requires i <= |s|
    ensures i + n <= |s|
    ensures forall k :: i <= k < i + n ==> InClass(s[k], cls)
    ensures i + n < |s| ==> !InClass(s[i + n], cls)
    decreases |s| - i
  {
    if i < |s| && InClass(s[i], cls) then 1 + Run(s, i + 1, cls) else 0
  }

  /**
   * The length of the match starting at `i`, or 0: the alternatives are tried
   * in order and each repetition is greedy.
   */
  function TokenLength(s: string, i: nat): (n: nat)
    requires i < |s|
    ensures i + n <= |s|
  {
    if s[i] == '$' && i + 1 < |s| && IsUpperHex(s[i + 1]) then 1 + Run(s, i + 1, UpperHexClass)
    else if IsDigit(s[i]) then Run(s, i, DecimalClass)
    else if s[i] == '%' && i + 1 < |s| && IsBit(s[i + 1]) then 1 + Run(s, i + 1, BitClass)
    else if IsWordChar(s[i]) then Run(s, i, WordClass)
    else 0
  }

  /** The match at `i` has one of the four shapes. */
  lemma {:induction false} TokenShape(s: string, i: nat)
    requires i < |s| && TokenLength(s, i) > 0
    ensures var t := s[i..i + TokenLength(s, i)];
            HexToken(t) || DecimalToken(t) || BinaryToken(t) || WordToken(t)
  {
    var n := TokenLength(s, i);
    var t := s[i..i + n];
    forall k | 1 <= k < n
      ensures t[k] == s[i + k]
    {
    }
  }

  /** `re.findall` from index `i` on: the non-overlapping matches, left to right. */
  function TokensFrom(s: string, i: nat): (ts: seq<string>)
    requires i <= |s|
    ensures forall k :: 0 <= k < |ts| ==> HexToken(ts[k]) || DecimalToken(ts[k]) || BinaryToken(ts[k]) || WordToken(ts[k])
    decreases |s| - i
  {
    if i == |s| then []
    else
      var n := TokenLength(s, i);
      if n == 0 then TokensFrom(s, i + 1)
      else
        TokenShape(s, i);
        [s[i..i + n]] + TokensFrom(s, i + n)
  }

  /** The tokens of a value list. */
  function Tokens(s: string): seq<string>
  {
    TokensFrom(s, 0)
  }

  // ---------------------------------------------------------------------------
  // `parse_array`
  // ---------------------------------------------------------------------------

  /** The ways `parse_array` raises. */
  datatype ArrayError =
    | NoSizes              // `i % len(sizes)` with no sizes
    | EmptyDefinition      // an `equs` value that is the empty text

  /**
   * The value packed for a token: its number, or for a name its definition's
   * number, or 0 when the name is undefined or its definition is no number.
   * A definition that is the empty text makes `parse_array_int` raise.
   */
  function TokenValue(t: string, equs: map<string, string>): (r: Result<int, ArrayError>)
    requires t != []
    ensures r.Err? ==> r.error == EmptyDefinition
  {
    match ParseArrayInt(t)
    case Some(v) => Ok(v)
    case None =>
      if t !in equs then Ok(0)
      else if equs[t] == [] then Err(EmptyDefinition)
      else match ParseArrayInt(equs[t])
        case Some(v) => Ok(v)
        case None => Ok(0)
  }

  /**
   * What the tokens the pattern finds stand for: a number its digits, a name
   * the number it is defined as, and 0 when it is not defined or not defined
   * as a number.
   */
  lemma {:induction false} TokenMeaning(t: string, equs: map<string, string>)
    requires HexToken(t) || DecimalToken(t) || BinaryToken(t) || WordToken(t)
    ensures HexToken(t) ==> AllDigitsIn(t[1..], 16) && TokenValue(t, equs) == Ok(DigitsValue(t[1..], 16) as int)
    ensures DecimalToken(t) ==> AllDigitsIn(t, 10) && TokenValue(t, equs) == Ok(DigitsValue(t, 10) as int)
    ensures BinaryToken(t) ==> AllDigitsIn(t[1..], 2) && TokenValue(t, equs) == Ok(DigitsValue(t[1..], 2) as int)
    ensures WordToken(t) && t !in equs ==> TokenValue(t, equs) == Ok(0)
    ensures WordToken(t) && t in equs && equs[t] != [] ==>
              TokenValue(t, equs) == Ok(if ParseArrayInt(equs[t]).Some? then ParseArrayInt(equs[t]).value else 0)
    ensures WordToken(t) && t in equs && equs[t] == [] ==> TokenValue(t, equs) == Err(EmptyDefinition)
  {
    NumberTokenValues(t);
    if WordToken(t) {
      WordTokenRaises(t);
    }
  }

  /** The values of all tokens, or the error of the first that raises. */
  function Values(ts: seq<string>, equs: map<string, string>): (r: Result<seq<int>, ArrayError>)
    requires forall j :: 0 <= j < |ts| ==> ts[j] != []
    ensures r.Ok? ==> |r.value| == |ts| && forall j :: 0 <= j < |ts| ==> TokenValue(ts[j], equs) == Ok(r.value[j])
    ensures r.Err? <==> exists j :: 0 <= j < |ts| && TokenValue(ts[j], equs).Err?
    ensures r.Err? ==> r.error == EmptyDefinition
  {
    if ts == [] then Ok([])
    else
      assert forall j :: 1 <= j < |ts| ==> ts[j] == ts[1..][j - 1];
      match TokenValue(ts[0], equs)
      case Err(e) => Err(e)
      case Ok(v) =>
        match Values(ts[1..], equs)
        case Err(e) => Err(e)
        case Ok(vs) => Ok([v] + vs)
  }

  /** The number of bytes a size packs into: `b` one, `w` two, anything else four. */
  function WidthOf(size: string): (n: nat)
    ensures n == 1 || n == 2 || n == 4
  {
    if size == "b" then 1 else if size == "w" then 2 else 4
  }

  /** The low `n` bytes of `val`, most significant first. */
  function LowBytes(val: int, n: nat): (r: seq<byte>)
    ensures |r| == n
    decreases n
  {
    if n == 0 then [] else LowBytes(val / 256, n - 1) + [val % 256]
  }

  /** The low bytes read back big-endian are the value modulo `256^n`: a mask of `n` bytes. */
  lemma {:induction false} LowBytesValue(val: int, n: nat)
    ensures FromBigEndian(LowBytes(val, n)) == val % Pow256(n)
    decreases n
  {
    if n > 0 {
      var hi := LowBytes(val / 256, n - 1);
      assert (hi + [val % 256])[..n - 1] == hi;
      LowBytesValue(val / 256, n - 1);
      ModProduct(val, 256, Pow256(n - 1));
    }
  }

  /** `struct.pack('>B'/'>H'/'>I', val & mask)`: the value's low bytes, big-endian. */
  function Pack(val: int, size: string): (r: seq<byte>)
    ensures |r| == WidthOf(size)
  {
    LowBytes(val, WidthOf(size))
  }

  /** The packed bytes read back as the value reduced modulo the width: the `& mask` of the script. */
  lemma {:induction false} PackValue(val: int, size: string)
    ensures FromBigEndian(Pack(val, size)) == val % Pow256(WidthOf(size))
  {
    LowBytesValue(val, WidthOf(size));
  }

  /**
   * The size of token `i`, `sizes[i % len(sizes)]`: the sizes repeat for as
   * long as there are tokens. Written as a recursion so that the solver sees
   * no division; `SizeAtIsModulo` shows it is the same.
   */
  function SizeAt(sizes: seq<string>, i: nat): string
    requires sizes != []
    decreases i
  {
    if i < |sizes| then sizes[i] else SizeAt(sizes, i - |sizes|)
  }

  /** `SizeAt` is indexing by the remainder. */
  lemma {:induction false} SizeAtIsModulo(sizes: seq<string>, i: nat)
    requires sizes != []
    ensures SizeAt(sizes, i) == sizes[i % |sizes|]
    decreases i
  {
    if i >= |sizes| {
      SizeAtIsModulo(sizes, i - |sizes|);
      AddPeriod(i - |sizes|, |sizes|);
    }
  }

  /** Where the bytes of token `i` start: the widths of the tokens before it. */
  function Offset(sizes: seq<string>, i: nat): nat
    requires sizes != []
  {
    if i == 0 then 0 else Offset(sizes, i - 1) + WidthOf(SizeAt(sizes, i - 1))
  }

  /** Where chunk `i` starts: the lengths of the chunks before it. */
  function Start<T>(cs: seq<seq<T>>, i: nat): nat
    requires i <= |cs|
  {
    if i == 0 then 0 else Start(cs, i - 1) + |cs[i - 1]|
  }

  /** The start of chunk `i` is the length of everything before it. */
  lemma {:induction false} StartLength<T>(cs: seq<seq<T>>, i: nat)
    requires i <= |cs|
    ensures Start(cs, i) == |Concat(cs[..i])|
  {
    if i > 0 {
      StartLength(cs, i - 1);
      assert cs[..i] == cs[..i - 1] + [cs[i - 1]];
      ConcatAppend(cs[..i - 1], [cs[i - 1]]);
      assert [cs[i - 1]][1..] == [];
    }
  }

  /** Chunk `i` sits in the concatenation at its start. */
  lemma {:induction false} ChunkAt<T>(cs: seq<seq<T>>, i: nat)
    requires i < |cs|
    ensures Start(cs, i) + |cs[i]| <= |Concat(cs)|
    ensures Concat(cs)[Start(cs, i)..Start(cs, i) + |cs[i]|] == cs[i]
  {
    var x, y, z := Concat(cs[..i]), cs[i], Concat(cs[i + 1..]);
    assert Concat(cs) == x + (y + z) by {
      ConcatSplit(cs, i);
      assert cs[i..][1..] == cs[i + 1..];
    }
    StartLength(cs, i);
    assert (x + (y + z))[|x|..|x| + |y|] == y;
  }

  /** Every value packed with the size its position selects, one chunk each. */
  function Chunks(vs: seq<int>, sizes: seq<string>): (cs: seq<seq<byte>>)
    requires sizes != []
    ensures |cs| == |vs|
    ensures forall j :: 0 <= j < |vs| ==> cs[j] == Pack(vs[j], SizeAt(sizes, j))
  {
    seq(|vs|, j requires 0 <= j < |vs| => Pack(vs[j], SizeAt(sizes, j)))
  }

  /** The chunks of `Chunks` start at the offsets the sizes give. */
  lemma {:induction false} PackedStarts(vs: seq<int>, sizes: seq<string>, i: nat)
    requires sizes != [] && i <= |vs|
    ensures Start(Chunks(vs, sizes), i) == Offset(sizes, i)
  {
    StartsAtOffsets(Chunks(vs, sizes), sizes, i);
  }

  /** Chunks whose lengths are the widths of their sizes start at the offsets. */
  lemma {:induction false} StartsAtOffsets(cs: seq<seq<byte>>, sizes: seq<string>, i: nat)
    requires sizes != [] && i <= |cs|
    requires forall j :: 0 <= j < |cs| ==> |cs[j]| == WidthOf(SizeAt(sizes, j))
    ensures Start(cs, i) == Offset(sizes, i)
  {
    if i > 0 {
      StartsAtOffsets(cs, sizes, i - 1);
    }
  }

  /** The packed data is as long as the offset past the last value. */
  lemma {:induction false} PackedLength(vs: seq<int>, sizes: seq<string>)
    requires sizes != []
    ensures |Concat(Chunks(vs, sizes))| == Offset(sizes, |vs|)
  {
    var cs := Chunks(vs, sizes);
    PackedStarts(vs, sizes, |vs|);
    StartLength(cs, |vs|);
    assert cs[..|cs|] == cs;
  }

  /**
   * `parse_array`: every token of `text` packed with the size its position
   * selects. With no sizes and no tokens there is nothing to divide by.
   */
  function ParseArray(text: string, sizes: seq<string>, equs: map<string, string>): (r: Result<seq<byte>, ArrayError>)
    ensures Tokens(text) == [] ==> r == Ok([])
    ensures sizes == [] && Tokens(text) != [] ==> r == Err(NoSizes)
    ensures sizes != [] && r.Ok? ==> |r.value| == Offset(sizes, |Tokens(text)|)
    ensures sizes != [] ==> (r.Err? <==> exists j :: 0 <= j < |Tokens(text)| && TokenValue(Tokens(text)[j], equs).Err?)
  {
    var ts := Tokens(text);
    if ts == [] then Ok([])
    else if sizes == [] then Err(NoSizes)
    else
      assert forall j :: 0 <= j < |ts| ==> ts[j] != [];
      match Values(ts, equs)
      case Err(e) => Err(e)
      case Ok(vs) =>
        PackedLength(vs, sizes);
        Ok(Concat(Chunks(vs, sizes)))
  }

  /** In the data `parse_array` returns, token `i`'s value, reduced to its width, sits at its offset. */
  lemma {:induction false} ParsedArrayToken(text: string, sizes: seq<string>, equs: map<string, string>, i: nat)
    requires sizes != [] && i < |Tokens(text)| && ParseArray(text, sizes, equs).Ok?
    ensures TokenValue(Tokens(text)[i], equs).Ok?
    ensures var r := ParseArray(text, sizes, equs).value;
            var lo := Offset(sizes, i);
            var w := WidthOf(SizeAt(sizes, i));
            && lo + w <= |r|
            && FromBigEndian(r[lo..lo + w]) == TokenValue(Tokens(text)[i], equs).value % Pow256(w)
  {
    var ts := Tokens(text);
    assert forall j :: 0 <= j < |ts| ==> ts[j] != [];
    var vs := Values(ts, equs).value;
    var r := ParseArray(text, sizes, equs).value;
    assert r == Concat(Chunks(vs, sizes));
    assert TokenValue(ts[i], equs) == Ok(vs[i]);
    PackedBytes(vs, sizes, i);
  }

  /** Value `i`, read back big-endian from its place in the packed data, modulo its width. */
  lemma {:induction false} PackedBytes(vs: seq<int>, sizes: seq<string>, i: nat)
    requires sizes != [] && i < |vs|
    ensures var r := Concat(Chunks(vs, sizes));
            var lo := Offset(sizes, i);
            var w := WidthOf(SizeAt(sizes, i));
            && lo + w <= |r|
            && FromBigEndian(r[lo..lo + w]) == vs[i] % Pow256(w)
  {
    var cs := Chunks(vs, sizes);
    assert cs[i] == Pack(vs[i], SizeAt(sizes, i));
    PackedChunk(vs, sizes, i);
    PackValue(vs[i], SizeAt(sizes, i));
  }

  /** The bytes of value `i` in the packed data are its chunk. */
  lemma {:induction false} PackedChunk(vs: seq<int>, sizes: seq<string>, i: nat)
    requires sizes != [] && i < |vs|
    ensures var cs := Chunks(vs, sizes);
            var lo := Offset(sizes, i);
            && lo + |cs[i]| <= |Concat(cs)|
            && Concat(cs)[lo..lo + |cs[i]|] == cs[i]
  {
    PackedStarts(vs, sizes, i);
    ChunkAt(Chunks(vs, sizes), i);
  }

  // ---------------------------------------------------------------------------
  // `parse_struct`
  // ---------------------------------------------------------------------------

  /** What `parse_struct` returns: the text itself, or the packed data. */
  datatype StructData = Verbatim(text: string) | Packed(data: seq<byte>)

  /** The size letter of a field: the one character after its `dc.`, if any. */
  function FieldSize(field: string): (r: Option<string>)
    ensures r.None? <==> !Contains(field, "dc.")
    ensures r.Some? ==> |r.value| <= 1
  {
    var p := Find(field, "dc.");
    if p == -1 then None
    else if p + 4 <= |field| then Some(field[p + 3..p + 4])
    else Some(field[p + 3..])
  }

  /** The sizes of the fields that hold a `dc.`; the others are reported and passed over. */
  function FieldSizes(fields: seq<string>): (sizes: seq<string>)
    ensures |sizes| <= |fields|
    ensures (forall j :: 0 <= j < |fields| ==> Contains(fields[j], "dc.")) ==> |sizes| == |fields|
  {
    if fields == [] then []
    else
      var rest := FieldSizes(fields[1..]);
      assert forall j :: 1 <= j < |fields| ==> fields[j] == fields[1..][j - 1];
      match FieldSize(fields[0])
      case None => rest
      case Some(sz) => [sz] + rest
  }

  /** `parse_struct`: an unknown struct leaves the text as it is; a known one sizes the values by its fields. */
  function ParseStruct(binData: string, name: string, structs: map<string, seq<string>>, equs: map<string, string>): (r: Result<StructData, ArrayError>)
    ensures name !in structs ==> r == Ok(Verbatim(binData))
    ensures name in structs ==> match ParseArray(binData, FieldSizes(structs[name]), equs)
                                 case Ok(d) => r == Ok(Packed(d))
                                 case Err(e) => r == Err(e)
  {
    if name !in structs then Ok(Verbatim(binData))
    else match ParseArray(binData, FieldSizes(structs[name]), equs)
      case Ok(d) => Ok(Packed(d))
      case Err(e) => Err(e)
  }

  // ---------------------------------------------------------------------------
  // `fix_dcb`
  // ---------------------------------------------------------------------------

  /** The number part of a `dcb.b` operand: `\$[0-9A-F]+`, `[0-9]+` or `%[0-1]+`, first that matches. */
  function NumberLength(s: string, i: nat): (n: nat)
    requires i <= |s|
    ensures i + n <= |s|
    ensures n > 0 ==> var t := s[i..i + n]; HexToken(t) || DecimalToken(t) || BinaryToken(t)
  {
    if i == |s| then 0
    else
      var n := if s[i] == '$' && i + 1 < |s| && IsUpperHex(s[i + 1]) then 1 + Run(s, i + 1, UpperHexClass)
               else if IsDigit(s[i]) then Run(s, i, DecimalClass)
               else if s[i] == '%' && i + 1 < |s| && IsBit(s[i + 1]) then 1 + Run(s, i + 1, BitClass)
               else 0;
      var t := s[i..i + n];
      assert forall k :: 1 <= k < n ==> t[k] == s[i + k];
      n
  }

  /** A `dcb.b count,value` directive: where it ends and its two operands. */
  datatype Dcb = Dcb(end: nat, count: string, value: string)

  /** Spaces and tabs from index `i`: `[ \t]+` and `(?:[ \t]+)?`. */
  function Blanks(s: string, i: nat): (n: nat)
    requires i <= |s|
    ensures i + n <= |s|
    decreases |s| - i
  {
    if i < |s| && (s[i] == ' ' || s[i] == '\t') then 1 + Blanks(s, i + 1) else 0
  }

  /** `dcb\.b[ \t]+NUMBER,(?:[ \t]+)?NUMBER` matched at index `p`. */
  function DcbAt(s: string, p: nat): (r: Option<Dcb>)
    requires p <= |s|
    ensures r.Some? ==> && p < r.value.end <= |s|
                        && OccursAt(s, "dcb.b", p)
                        && r.value.count != [] && r.value.value != []
  {
    if !OccursAt(s, "dcb.b", p) then None
    else
      var b := Blanks(s, p + 5);
      var c := p + 5 + b;
      var nc := NumberLength(s, c);
      if b == 0 || nc == 0 || c + nc == |s| || s[c + nc] != ',' then None
      else
        var v := c + nc + 1 + Blanks(s, c + nc + 1);
        var nv := NumberLength(s, v);
        if nv == 0 then None
        else Some(Dcb(v + nv, s[c..c + nc], s[v..v + nv]))
  }

  /**
   * The rewrite of one directive: a fill of zeros becomes `rorg $<count in
   * hex>`, any other fill `dc.b [count]value`.
   */
  function DcbReplacement(count: string, value: string): (r: string)
    requires count != [] && value != []
    requires ParseArrayInt(count).Some? && ParseArrayInt(value).Some?
    requires ParseArrayInt(count).value >= 0
  {
    if ParseArrayInt(value).value == 0 then "rorg $" + Hex(ParseArrayInt(count).value)
    else "dc.b [" + count + "]" + value
  }

  /** The operands of a matched directive are numbers, and never negative. */
  lemma {:induction false} DcbOperands(s: string, p: nat)
    requires p <= |s| && DcbAt(s, p).Some?
    ensures var d := DcbAt(s, p).value;
            && ParseArrayInt(d.count).Some? && ParseArrayInt(d.count).value >= 0
            && ParseArrayInt(d.value).Some? && ParseArrayInt(d.value).value >= 0
  {
    var d := DcbAt(s, p).value;
    NumberTokenValues(d.count);
    NumberTokenValues(d.value);
  }

  /**
   * `fix_dcb` from index `i` on: each directive, found left to right without
   * overlap, replaced by its rewrite; everything else copied.
   */
  function FixDcbFrom(s: string, i: nat): (r: string)
    requires i <= |s|
    ensures !Contains(s[i..], "dcb.b") ==> r == s[i..]
    decreases |s| - i
  {
    if i == |s| then []
    else match DcbAt(s, i)
      case Some(d) =>
        DcbOperands(s, i);
        DcbContains(s, i);
        DcbReplacement(d.count, d.value) + FixDcbFrom(s, d.end)
      case None =>
        NoneAfter(s, i);
        [s[i]] + FixDcbFrom(s, i + 1)
  }

  /** A directive at `i` is a `dcb.b` in `s[i..]`. */
  lemma {:induction false} DcbContains(s: string, i: nat)
    requires i <= |s| && DcbAt(s, i).Some?
    ensures Contains(s[i..], "dcb.b")
  {
    assert s[i..][0..5] == s[i..i + 5];
    OccursContains(s[i..], "dcb.b", 0);
  }

  /** When `s[i..]` holds no `dcb.b`, neither does `s[i + 1..]`; and `s[i..]` is `s[i]` then `s[i + 1..]`. */
  lemma {:induction false} NoneAfter(s: string, i: nat)
    requires i < |s|
    ensures !Contains(s[i..], "dcb.b") ==> !Contains(s[i + 1..], "dcb.b")
    ensures s[i..] == [s[i]] + s[i + 1..]
  {
    if Contains(s[i + 1..], "dcb.b") {
      var j := Find(s[i + 1..], "dcb.b");
      assert s[i + 1..][j..j + 5] == s[i..][j + 1..j + 6];
      OccursContains(s[i..], "dcb.b", j + 1);
    }
  }

  /** `fix_dcb`. */
  function FixDcb(s: string): (r: string)
    ensures !Contains(s, "dcb.b") ==> r == s
  {
    assert s[0..] == s;
    FixDcbFrom(s, 0)
  }

  /** A fill of zeros reserves as many bytes as the directive filled: `rorg`'s operand reads as the count. */
  lemma {:induction false} RorgKeepsCount(count: string, value: string)
    requires count != [] && value != []
    requires ParseArrayInt(count).Some? && ParseArrayInt(value) == Some(0)
    requires ParseArrayInt(count).value >= 0
    ensures var r := DcbReplacement(count, value);
            StartsWith(r, "rorg ") && ParseArrayInt(r[5..]) == ParseArrayInt(count)
  {
    var n := ParseArrayInt(count).value;
    var h := "$" + Hex(n);
    assert DcbReplacement(count, value) == "rorg " + h;
    assert ("rorg " + h)[..5] == "rorg " && ("rorg " + h)[5..] == h;
    HexRoundTrip(n);
  }

  // ---------------------------------------------------------------------------
  // The ROM segment
  // ---------------------------------------------------------------------------

  /** `get_rom_start`: the text from the line `; segment "ROM"` on, or all of it. */
  function GetRomStart(text: string): (r: string)
    ensures |r| <= |text| && r == text[|text| - |r|..]
    ensures !Contains(text, "\n; segment \"ROM\"") ==> r == text
    ensures Contains(text, "\n; segment \"ROM\"") ==>
              var p := |text| - |r| - 1;
              && 0 <= p && OccursAt(text, "\n; segment \"ROM\"", p)
              && forall j :: 0 <= j < p ==> !OccursAt(text, "\n; segment \"ROM\"", j)
  {
    var p := Find(text, "\n; segment \"ROM\"");
    if p == -1 then text else text[p + 1..]
  }

  /** `get_rom_end`: the text up to and including the newline before `; end of 'ROM'`, or all of it. */
  function GetRomEnd(text: string): (r: string)
    ensures |r| <= |text| && r == text[..|r|]
    ensures !Contains(text, "\n; end of 'ROM'") ==> r == text
    ensures Contains(text, "\n; end of 'ROM'") ==>
              var p := |r| - 1;
              && 0 <= p && OccursAt(text, "\n; end of 'ROM'", p)
              && forall j :: 0 <= j < p ==> !OccursAt(text, "\n; end of 'ROM'", j)
  {
    var p := Find(text, "\n; end of 'ROM'");
    if p == -1 then text else text[..p + 1]
  }
}
