/**
 * The assembler data-directive parser shared by scripts/split_data.py and
 * scripts/convert_tiles.py (`parse_dc_value`, `parse_dc_line`): one
 * `dc.b`/`dc.w`/`dc.l` value token becomes big-endian bytes, and a directive
 * line becomes the concatenation of its values' bytes.
 *
 * The Python functions have three outcomes, all kept apart here: bytes, `None`
 * (the token or line is not plain data, e.g. a label reference) and an
 * exception the scripts do not catch (`DcError`).
 */
module DcValues {
  import opened Results
  import opened Bytes
  import opened Text
  import opened Numerals
  import opened Arithmetic

  /** The size suffix of a `dc` directive. */
  datatype DcSize = B | W | L

  /** Bytes per value of each directive size. */
  function Width(sz: DcSize): (n: nat)
    ensures n == 1 || n == 2 || n == 4
  {
    match sz
    case B => 1
    case W => 2
    case L => 4
  }

  /** The exceptions `parse_dc_value` lets escape. */
  datatype DcError =
    | NotLatin1(c: char)                // `UnicodeEncodeError` from `text.encode('latin1')`
    | MalformedDecimal(token: string)   // `ValueError` from `int()` on a token like `--5`
    | Overflow(value: int, width: nat)  // `OverflowError` from `to_bytes` on a value too large

  /** The outcome of parsing a value or a line: bytes, not data (`None`), or an exception. */
  type Parsed = Result<Option<seq<byte>>, DcError>

  lemma {:induction false} Pow256Values()
    ensures Pow256(1) == 256 && Pow256(2) == 0x1_0000 && Pow256(4) == 0x1_0000_0000
  {
    assert Pow256(2) == 256 * Pow256(1);
    assert Pow256(3) == 256 * Pow256(2);
  }

  lemma {:induction false} OneByteValue(x: byte)
    ensures FromBigEndian([x]) == x
  {
    assert [x][..0] == [];
  }

  /**
   * A parsed number as the directive stores it: `dc.b` keeps `num & 0xFF`;
   * `dc.w` and `dc.l` wrap a negative number into range and refuse a positive
   * one that does not fit.
   */
  function Encode(num: int, sz: DcSize): (r: Result<seq<byte>, DcError>)
    ensures r.Err? <==> sz != B && num >= Pow256(Width(sz))
    ensures r.Ok? ==> |r.value| == Width(sz)
    ensures r.Ok? ==> FromBigEndian(r.value) == num % Pow256(Width(sz))
    ensures r.Err? ==> r.error == Overflow(num, Width(sz))
  {
    match sz
    case B =>
      OneByteValue(num % 256);
      assert Pow256(1) == 256 * Pow256(0);
      Ok([num % 256])
    case W => Wide(num, 2)
    case L => Wide(num, 4)
  }

  /**
   * `num.to_bytes(w, 'big')` after adding `2**(8*w)` to a negative `num`: the
   * masked sum is in range, a positive number too large raises.
   */
  function Wide(num: int, w: nat): (r: Result<seq<byte>, DcError>)
    ensures r.Err? <==> num >= Pow256(w)
    ensures r.Ok? ==> |r.value| == w
    ensures r.Ok? ==> FromBigEndian(r.value) == num % Pow256(w)
  {
    var m := Pow256(w);
    var n := if num < 0 then (m + num) % m else num;
    if n >= m then Err(Overflow(num, w))
    else
      WrapRemainder(num, m);
      BigEndianRoundTrip(n, w);
      Ok(ToBigEndian(n, w))
  }

  /** Adding the modulus first does not change the Euclidean remainder. */
  lemma {:induction false} WrapRemainder(num: int, m: nat)
    requires m >= 1
    ensures num < 0 ==> (m + num) % m == num % m
    ensures 0 <= num < m ==> num % m == num
  {
    AddPeriod(num, m);
    if 0 <= num < m {
      ModUnique(num, m, 0, num);
    }
  }

  /** `t.encode('latin1')`: one byte per character, or an error at the first character above 255. */
  function Latin1(t: string): (r: Result<seq<byte>, DcError>)
    ensures r.Ok? <==> forall i :: 0 <= i < |t| ==> t[i] as int < 256
    ensures r.Ok? ==> |r.value| == |t| && forall i :: 0 <= i < |t| ==> r.value[i] == t[i] as int
    ensures r.Err? ==> r.error.NotLatin1? && r.error.c in t && r.error.c as int >= 256
  {
    if t == [] then Ok([])
    else if t[0] as int >= 256 then Err(NotLatin1(t[0]))
    else
      match Latin1(t[1..])
      case Ok(rest) => Ok([t[0] as int] + rest)
      case Err(e) => Err(e)
  }

  /** Python's `v[1:-1]`. */
  function Inner(v: string): (r: string)
    ensures |v| >= 2 ==> r == v[1..|v| - 1]
    ensures |v| < 2 ==> r == []
  {
    if |v| >= 2 then v[1..|v| - 1] else []
  }

  /** `s` is non-empty and all ASCII digits: `str.isdigit()` for ASCII text. */
  predicate IsDigitString(s: string)
  {
    s != [] && forall i :: 0 <= i < |s| ==> IsDigit(s[i])
  }

  /**
   * Which `int()` call the token's first characters select: the text handed
   * to `int()`, the radix, and whether a `ValueError` from it is caught (it is
   * for the three prefixed formats, not for decimal). `None`: no numeric
   * format, so the token is a label reference.
   */
  datatype IntCall = IntCall(text: string, base: nat, caught: bool)

  function NumberFormat(v: string): (f: Option<IntCall>)
    requires v != []
    ensures f.Some? ==> ValidBase(f.value.base)
  {
    if v[0] == '$' then Some(IntCall(v[1..], 16, true))
    else if |v| >= 2 && v[0] == '0' && (v[1] == 'x' || v[1] == 'X') then Some(IntCall(v, 16, true))
    else if v[0] == '%' then Some(IntCall(v[1..], 2, true))
    else if IsDigitString(LStripChar(v, '-')) then Some(IntCall(v, 10, false))
    else None
  }

  /**
   * The number a stripped, non-empty, unquoted token stands for: `$hex`,
   * `0x`/`0X` hex, `%binary`, or decimal behind leading minus signs. `None`
   * is a token of no numeric format, or a prefixed one whose digits `int()`
   * rejects.
   */
  function Number(v: string): (r: Result<Option<int>, DcError>)
    requires v != []
    ensures r.Err? ==> r.error == MalformedDecimal(v)
  {
    match NumberFormat(v)
    case None => Ok(None)
    case Some(call) =>
      match PyInt(call.text, call.base)
      case Some(n) => Ok(Some(n))
      case None => if call.caught then Ok(None) else Err(MalformedDecimal(v))
  }

  /** `int()` refuses a second minus sign. */
  lemma {:induction false} DoubleSignRejected(v: string)
    requires |v| >= 2 && v[0] == '-' && v[1] == '-' && !IsSpace(v[|v| - 1])
    ensures PyInt(v, 10) == None
  {
    StripOfStripped(v);
    assert !IsDigitIn(v[1..][0], 10);
    assert AfterPrefix(v[1..], 10) == v[1..];
  }

  /** A quote character that opens a text value. */
  predicate IsQuote(c: char)
  {
    c == '\'' || c == '"'
  }

  /** A number as the directive stores it, or the exception encoding it raises. */
  function Stored(num: int, sz: DcSize): (r: Parsed)
    ensures r.Ok? ==> r.value.Some? && |r.value.value| == Width(sz)
    ensures r.Err? ==> r.error == Overflow(num, Width(sz)) && sz != B && num >= Pow256(Width(sz))
  {
    match Encode(num, sz)
    case Ok(bs) => Ok(Some(bs))
    case Err(e) => Err(e)
  }

  /** A stripped, unquoted, non-empty token: its number stored at the width, if it has one. */
  function ParseNumber(v: string, sz: DcSize): (r: Parsed)
    requires v != []
    ensures r.Ok? && r.value.Some? ==> |r.value.value| == Width(sz)
    ensures r.Err? && r.error.Overflow? ==> sz != B && r.error.value >= Pow256(Width(sz))
    ensures r.Err? ==> r.error.Overflow? || r.error == MalformedDecimal(v)
  {
    match Number(v)
    case Err(e) => Err(e)
    case Ok(None) => Ok(None)
    case Ok(Some(num)) => Stored(num, sz)
  }

  /**
   * `parse_dc_value`: a value token of a directive of size `sz`. A quoted token
   * is its inner text in Latin-1, whatever the size; a number is encoded at
   * the directive's width; anything else is not data.
   */
  function ParseDcValue(value: string, sz: DcSize): (r: Parsed)
    ensures Strip(value) == [] ==> r == Ok(None)
    ensures Strip(value) != [] && !IsQuote(Strip(value)[0]) && r.Ok? && r.value.Some? ==> |r.value.value| == Width(sz)
    ensures Strip(value) != [] && r.Err? && r.error.NotLatin1? ==> IsQuote(Strip(value)[0])
    ensures r.Err? && r.error.Overflow? ==> sz != B && r.error.value >= Pow256(Width(sz))
  {
    var v := Strip(value);
    if v == [] then Ok(None)
    else if IsQuote(v[0]) then
      match Latin1(Inner(v))
      case Ok(bs) => Ok(Some(bs))
      case Err(e) => Err(e)
    else ParseNumber(v, sz)
  }

  /** A token without surrounding whitespace or an opening quote is read as a number. */
  lemma {:induction false} UnquotedToken(v: string, sz: DcSize)
    requires v != [] && !IsSpace(v[0]) && !IsSpace(v[|v| - 1]) && !IsQuote(v[0])
    ensures ParseDcValue(v, sz) == ParseNumber(v, sz)
  {
    StripOfStripped(v);
  }

  /** A token in a numeric format whose `int()` call succeeds stands for that number. */
  lemma {:induction false} CallAccepted(v: string, call: IntCall, n: int)
    requires v != [] && NumberFormat(v) == Some(call)
    requires ValidBase(call.base) && PyInt(call.text, call.base) == Some(n)
    ensures Number(v) == Ok(Some(n))
  {
  }

  /** A token whose number is `n` is stored as `n` at the directive's width. */
  lemma {:induction false} NumberToken(v: string, sz: DcSize, n: int)
    requires v != [] && !IsSpace(v[0]) && !IsSpace(v[|v| - 1]) && !IsQuote(v[0])
    requires Number(v) == Ok(Some(n))
    ensures ParseDcValue(v, sz) == Stored(n, sz)
  {
    UnquotedToken(v, sz);
  }

  /** Digits, possibly behind minus signs: an unquoted token without surrounding whitespace. */
  predicate DecimalLike(v: string, d: string)
  {
    && v != [] && !IsSpace(v[0]) && !IsSpace(v[|v| - 1]) && !IsQuote(v[0])
    && NumberFormat(v) == Some(IntCall(v, 10, false))
  }

  /** A digit string is in the decimal format. */
  lemma {:induction false} DigitsShape(d: string)
    requires d != [] && forall i :: 0 <= i < |d| ==> IsDigit(d[i])
    ensures DecimalLike(d, d)
  {
    assert IsDigit(d[0]) && IsDigit(d[|d| - 1]);
    assert LStripChar(d, '-') == d;
    if |d| >= 2 {
      assert IsDigit(d[1]);
    }
  }

  /** Digits behind one minus sign are in the decimal format. */
  lemma {:induction false} NegatedShape(d: string)
    requires d != [] && forall i :: 0 <= i < |d| ==> IsDigit(d[i])
    ensures DecimalLike("-" + d, d)
  {
    var v := "-" + d;
    assert IsDigit(d[0]) && IsDigit(d[|d| - 1]);
    assert v[|v| - 1] == d[|d| - 1] && v[0] == '-';
    assert LStripChar(d, '-') == d;
    assert v[1..] == d;
    assert LStripChar(v, '-') == d;
  }

  /** Digits behind two minus signs are in the decimal format too. */
  lemma {:induction false} DoubleNegatedShape(d: string)
    requires d != [] && forall i :: 0 <= i < |d| ==> IsDigit(d[i])
    ensures DecimalLike("--" + d, d)
  {
    var v := "--" + d;
    assert IsDigit(d[|d| - 1]);
    assert v[|v| - 1] == d[|d| - 1] && v[0] == '-';
    NegatedShape(d);
    assert v[1..] == "-" + d;
    assert LStripChar(v, '-') == LStripChar("-" + d, '-');
  }

  /** `str(n)` for any integer. */
  function SignedDecimal(n: int): (s: string)
    ensures s != []
  {
    if n < 0 then "-" + Decimal(-n) else Decimal(n)
  }

  /** `int(str(n))` is `n`. */
  lemma {:induction false} SignedDecimalValue(n: int)
    ensures PyInt(SignedDecimal(n), 10) == Some(n)
  {
    if n < 0 {
      var m: nat := -n;
      assert SignedDecimal(n) == "-" + ToDigits(m, 10);
      PyIntNegative(m, 10);
      assert -(m as int) == n;
    } else {
      assert SignedDecimal(n) == ToDigits(n, 10);
      PyIntRoundTrip(n, 10);
    }
  }

  /** The token `str(n)` is stored as `n` at the directive's width. */
  lemma {:induction false} SignedNumber(n: int, sz: DcSize)
    ensures ParseDcValue(SignedDecimal(n), sz) == Stored(n, sz)
  {
    var v := SignedDecimal(n);
    var d := Decimal(if n < 0 then -n else n);
    assert forall i :: 0 <= i < |d| ==> IsDigit(d[i]);
    if n < 0 {
      NegatedShape(d);
    } else {
      DigitsShape(d);
    }
    SignedDecimalValue(n);
    CallAccepted(v, IntCall(v, 10, false), n);
    NumberToken(v, sz, n);
  }

  /** A decimal `dc.b` value is stored modulo 256, negative values included. */
  lemma {:induction false} ByteWraps(n: int)
    ensures ParseDcValue(SignedDecimal(n), B) == Ok(Some([n % 256]))
  {
    SignedNumber(n, B);
    StoredByte(n);
  }

  /** A negative decimal `dc.w` or `dc.l` value wraps into range. */
  lemma {:induction false} NegativeWraps(n: int, sz: DcSize)
    requires n < 0
    ensures var r := ParseDcValue(SignedDecimal(n), sz);
            r.Ok? && r.value.Some? && |r.value.value| == Width(sz)
            && FromBigEndian(r.value.value) == n % Pow256(Width(sz))
  {
    SignedNumber(n, sz);
  }

  /** A decimal `dc.w` or `dc.l` value too large for the width raises. */
  lemma {:induction false} PositiveOverflowRaises(n: nat, sz: DcSize)
    requires sz != B && n >= Pow256(Width(sz))
    ensures ParseDcValue(SignedDecimal(n), sz) == Err(Overflow(n, Width(sz)))
  {
    SignedNumber(n, sz);
    Pow256Values();
  }

  /** `'$%X' % n` is an unquoted token without surrounding whitespace, in the `$` format. */
  lemma {:induction false} HexShape(n: nat)
    ensures var v := "$" + Hex(n);
            !IsSpace(v[0]) && !IsSpace(v[|v| - 1]) && !IsQuote(v[0])
            && NumberFormat(v) == Some(IntCall(Hex(n), 16, true))
  {
    var h := Hex(n);
    var v := "$" + h;
    assert IsDigitIn(h[|h| - 1], 16) && v[|v| - 1] == h[|h| - 1];
    assert v[1..] == h;
  }

  /** The token `'$%X' % n` is stored as `n` at the directive's width. */
  lemma {:induction false} HexToken(n: nat, sz: DcSize)
    ensures ParseDcValue("$" + Hex(n), sz) == Stored(n, sz)
  {
    var v := "$" + Hex(n);
    HexShape(n);
    PyIntRoundTrip(n, 16);
    CallAccepted(v, IntCall(Hex(n), 16, true), n);
    NumberToken(v, sz, n);
  }

  /** `'$%X' % n` read as a byte, word or long gives `n` back, big-endian, when it fits. */
  lemma {:induction false} HexRoundTrip(n: nat, sz: DcSize)
    requires n < Pow256(Width(sz))
    ensures var r := ParseDcValue("$" + Hex(n), sz);
            r.Ok? && r.value.Some? && |r.value.value| == Width(sz)
            && FromBigEndian(r.value.value) == n
  {
    HexToken(n, sz);
    WrapRemainder(n, Pow256(Width(sz)));
  }

  /** A byte written as `'$%X'` in a `dc.b` directive is that one byte. */
  lemma {:induction false} HexByte(b: byte)
    ensures ParseDcValue("$" + Hex(b), B) == Ok(Some([b]))
  {
    HexToken(b, B);
    assert Stored(b, B) == Ok(Some([b])) by {
      StoredByte(b);
      ModUnique(b, 256, 0, b);
    }
  }

  /** `dc.b` stores the low byte of any number. */
  lemma {:induction false} StoredByte(num: int)
    ensures Stored(num, B) == Ok(Some([num % 256]))
  {
  }

  /** A bare identifier (a label reference) is not data. */
  lemma {:induction false} LabelIsNotData(v: string, sz: DcSize)
    requires v != [] && (IsLetter(v[0]) || v[0] == '_')
    requires forall i :: 0 <= i < |v| ==> IsWordChar(v[i])
    ensures ParseDcValue(v, sz) == Ok(None)
  {
    assert NumberFormat(v) == None by {
      assert LeadingCount(v, '-') == 0;
      assert LStripChar(v, '-') == v;
      assert !IsDigit(v[0]);
    }
    assert ParseDcValue(v, sz) == ParseNumber(v, sz) by {
      assert IsWordChar(v[|v| - 1]);
      UnquotedToken(v, sz);
    }
  }

  /** Two leading minus signs pass the `isdigit` test but make `int()` raise. */
  lemma {:induction false} DoubleMinusRaises(n: nat, sz: DcSize)
    ensures ParseDcValue("--" + Decimal(n), sz) == Err(MalformedDecimal("--" + Decimal(n)))
  {
    var d := Decimal(n);
    var v := "--" + d;
    assert forall i :: 0 <= i < |d| ==> IsDigit(d[i]);
    DoubleNegatedShape(d);
    DoubleSignRejected(v);
    assert Number(v) == Err(MalformedDecimal(v));
    UnquotedToken(v, sz);
  }

  /** A quoted token is its inner text, one byte per character, whatever the size. */
  lemma {:induction false} QuotedText(t: string, q: char, sz: DcSize)
    requires IsQuote(q)
    requires forall i :: 0 <= i < |t| ==> t[i] as int < 256
    ensures var r := ParseDcValue([q] + t + [q], sz);
            r.Ok? && r.value.Some? && |r.value.value| == |t|
            && forall i :: 0 <= i < |t| ==> r.value.value[i] == t[i] as int
  {
    var v := [q] + t + [q];
    StripOfStripped(v);
    assert Inner(v) == t;
    assert v[0] == q;
  }
}
