/**
 * Digit strings: their values, the upper-case renderings `'%X' % n` and
 * `str(n)`, and CPython's `int(s, base)` for the bases the scripts use.
 * Only ASCII digits are modelled (Python also accepts other Unicode decimal
 * digits).
 */
module Numerals {
  import opened Results
  import opened Text

  /** The value of a hexadecimal digit character in either case, or -1. */
  function DigitValue(c: char): (v: int)
    ensures -1 <= v < 16
    ensures v >= 0 <==> IsDigit(c) || 'a' <= c <= 'f' || 'A' <= c <= 'F'
    ensures IsDigit(c) ==> v == c as int - '0' as int
  {
    if IsDigit(c) then c as int - '0' as int
    else if 'a' <= c <= 'f' then c as int - 'a' as int + 10
    else if 'A' <= c <= 'F' then c as int - 'A' as int + 10
    else -1
  }

  /** `c` is a digit of radix `base`. */
  predicate IsDigitIn(c: char, base: nat)
  {
    0 <= DigitValue(c) < base
  }

  predicate AllDigitsIn(s: string, base: nat)
  {
    forall i :: 0 <= i < |s| ==> IsDigitIn(s[i], base)
  }

  /** Every character is a decimal digit or an upper-case letter `A-F`, as `'%X'` writes. */
  predicate UpperDigits(s: string)
  {
    forall i :: 0 <= i < |s| ==> IsDigit(s[i]) || 'A' <= s[i] <= 'F'
  }

  /** A radix in which every digit is one of `0-9A-F`. */
  predicate ValidBase(base: nat)
  {
    2 <= base <= 16
  }

  /** The value of a digit string read most significant digit first. */
  function DigitsValue(s: string, base: nat): nat
    requires ValidBase(base) && AllDigitsIn(s, base)
  {
    if s == [] then 0
    else DigitsValue(s[..|s| - 1], base) * base + DigitValue(s[|s| - 1])
  }

  /** Euclidean division by a radix, spelled out for the solver. */
  lemma {:induction false} DivideByBase(n: nat, base: nat)
    requires ValidBase(base)
    ensures n == (n / base) * base + n % base && 0 <= n % base < base
    ensures n >= base ==> 1 <= n / base < n
  {
  }

  /** The upper-case character for a digit value, as `'%X'` writes it. */
  function DigitChar(d: nat): (c: char)
    requires d < 16
    ensures DigitValue(c) == d
    ensures d < 10 ==> IsDigit(c)
    ensures IsDigit(c) || 'A' <= c <= 'F'
  {
    if d < 10 then ('0' as int + d) as char else ('A' as int + d - 10) as char
  }

  /**
   * `n` in radix `base` without leading zeros: `str(n)` for base 10, `'%X' % n`
   * for base 16.
   */
  function ToDigits(n: nat, base: nat): (s: string)
    requires ValidBase(base)
    ensures |s| >= 1 && AllDigitsIn(s, base)
    ensures DigitsValue(s, base) == n
    ensures |s| > 1 ==> s[0] != '0'
    ensures base <= 10 ==> forall i :: 0 <= i < |s| ==> IsDigit(s[i])
    ensures UpperDigits(s)
  {
    if n < base then [DigitChar(n)]
    else
      DivideByBase(n, base);
      var s := ToDigits(n / base, base) + [DigitChar(n % base)];
      assert s[..|s| - 1] == ToDigits(n / base, base);
      s
  }

  /** `str(n)` for a natural number. */
  function Decimal(n: nat): (s: string)
    ensures |s| >= 1 && AllDigitsIn(s, 10)
    ensures forall i :: 0 <= i < |s| ==> IsDigit(s[i])
    ensures DigitsValue(s, 10) == n
  {
    ToDigits(n, 10)
  }

  /** `'%X' % n`. */
  function Hex(n: nat): (s: string)
    ensures |s| >= 1 && AllDigitsIn(s, 16) && UpperDigits(s)
    ensures DigitsValue(s, 16) == n
  {
    ToDigits(n, 16)
  }

  /**
   * The rest of a digit part `int()` accepts, from index `i` on, after at
   * least one digit whose value so far is `acc`: more digits, each possibly
   * behind a single underscore. `None` as soon as anything else turns up.
   */
  function DigitRun(s: string, base: nat, i: nat, acc: nat): (r: Option<nat>)
    requires ValidBase(base) && i <= |s|
    decreases |s| - i
  {
    if i == |s| then Some(acc)
    else if IsDigitIn(s[i], base) then DigitRun(s, base, i + 1, acc * base + DigitValue(s[i]))
    else if s[i] == '_' && i + 1 < |s| && IsDigitIn(s[i + 1], base) then
      DigitRun(s, base, i + 2, acc * base + DigitValue(s[i + 1]))
    else None
  }

  /** The value of a digit part: a digit first, then `DigitRun`. */
  function BodyValue(body: string, base: nat): (r: Option<nat>)
    requires ValidBase(base)
  {
    if body != [] && IsDigitIn(body[0], base) then DigitRun(body, base, 1, DigitValue(body[0]))
    else None
  }

  /** Reading plain digits from `i` on, starting from the value of `s[..i]`, gives the value of `s`. */
  lemma {:induction false} DigitRunOfDigits(s: string, base: nat, i: nat)
    requires ValidBase(base) && AllDigitsIn(s, base) && i <= |s|
    ensures DigitRun(s, base, i, DigitsValue(s[..i], base)) == Some(DigitsValue(s, base))
    decreases |s| - i
  {
    if i == |s| {
      assert s[..i] == s;
    } else {
      assert s[..i + 1][..i] == s[..i];
      assert DigitsValue(s[..i + 1], base) == DigitsValue(s[..i], base) * base + DigitValue(s[i]);
      DigitRunOfDigits(s, base, i + 1);
    }
  }

  /** A plain digit string is accepted, with its value. */
  lemma {:induction false} DigitsBody(s: string, base: nat)
    requires ValidBase(base) && s != [] && AllDigitsIn(s, base)
    ensures BodyValue(s, base) == Some(DigitsValue(s, base))
  {
    assert s[..1][..0] == [];
    assert DigitsValue(s[..1], base) == DigitValue(s[0]);
    DigitRunOfDigits(s, base, 1);
  }

  /** The letter of the radix prefix `int()` accepts for `base`, if it has one. */
  function PrefixLetter(base: nat): (c: Option<char>)
  {
    if base == 16 then Some('x')
    else if base == 8 then Some('o')
    else if base == 2 then Some('b')
    else None
  }

  /**
   * `u` without the radix prefix `0x`/`0o`/`0b` (either case) of its base and
   * the one underscore allowed right after it.
   */
  function AfterPrefix(u: string, base: nat): (body: string)
    ensures |body| <= |u|
  {
    match PrefixLetter(base)
    case Some(x) =>
      if |u| >= 2 && u[0] == '0' && SameIgnoringCase(u[1], x) then
        if |u| >= 3 && u[2] == '_' then u[3..] else u[2..]
      else u
    case None => u
  }

  /**
   * CPython's `int(s, base)`: surrounding whitespace, then an optional sign,
   * then an optional radix prefix, then digits with single underscores between
   * them; anything else raises `ValueError`, which is `None` here.
   */
  function PyInt(s: string, base: nat): (r: Option<int>)
    requires ValidBase(base)
  {
    SignedValue(Strip(s), base)
  }

  /** `int()` on text already stripped: an optional sign, then the body. */
  function SignedValue(t: string, base: nat): (r: Option<int>)
    requires ValidBase(base)
  {
    var signed := t != [] && (t[0] == '-' || t[0] == '+');
    var u := if signed then t[1..] else t;
    match BodyValue(AfterPrefix(u, base), base)
    case None => None
    case Some(v) => Some(if signed && t[0] == '-' then -(v as int) else v)
  }

  /** `int()` ignores surrounding whitespace: strings that strip alike read alike. */
  lemma {:induction false} PyIntOfStrip(s: string, t: string, base: nat)
    requires ValidBase(base) && Strip(s) == Strip(t)
    ensures PyInt(s, base) == PyInt(t, base)
  {
  }

  /** A plain digit string reads as its value. */
  lemma {:induction false} PyIntOfDigits(s: string, base: nat)
    requires ValidBase(base) && s != [] && AllDigitsIn(s, base)
    ensures PyInt(s, base) == Some(DigitsValue(s, base))
  {
    assert IsDigitIn(s[0], base) && IsDigitIn(s[|s| - 1], base);
    StripOfStripped(s);
    if |s| >= 2 {
      assert IsDigitIn(s[1], base);
    }
    assert AfterPrefix(s, base) == s;
    DigitsBody(s, base);
  }

  /** `int(str(n))` and `int('%X' % n, 16)` give `n` back. */
  lemma {:induction false} PyIntRoundTrip(n: nat, base: nat)
    requires ValidBase(base)
    ensures PyInt(ToDigits(n, base), base) == Some(n)
  {
    PyIntOfDigits(ToDigits(n, base), base);
  }

  /** A minus sign in front of a digit string of value `n` negates it. */
  lemma {:induction false} PyIntOfNegatedDigits(d: string, base: nat, n: nat)
    requires ValidBase(base) && d != [] && AllDigitsIn(d, base) && DigitsValue(d, base) == n
    ensures PyInt("-" + d, base) == Some(-(n as int))
  {
    var s := "-" + d;
    assert IsDigitIn(d[|d| - 1], base) && s[|s| - 1] == d[|d| - 1];
    StripOfStripped(s);
    assert s[1..] == d;
    assert IsDigitIn(d[0], base);
    if |d| >= 2 {
      assert IsDigitIn(d[1], base);
    }
    assert AfterPrefix(d, base) == d;
    DigitsBody(d, base);
  }

  /** `int('-' + str(n))` is `-n`. */
  lemma {:induction false} PyIntNegative(n: nat, base: nat)
    requires ValidBase(base)
    ensures PyInt("-" + ToDigits(n, base), base) == Some(-(n as int))
  {
    PyIntOfNegatedDigits(ToDigits(n, base), base, n);
  }
}
