/**
 * The handful of Python `str` operations the scripts rely on, over `string`
 * (`seq<char>`): whitespace stripping, prefix and substring search, splitting,
 * joining and replacement, each with the meaning CPython gives it.
 */
module Text {

  /**
   * `str.isspace()` for one character; `str.strip()` and the `\s` class of
   * `re` on `str` patterns use the same set.
   */
  predicate IsSpace(c: char)
  {
    c == ' ' || '\t' <= c <= '\r' || '\U{1c}' <= c <= '\U{1f}'
    || c == '\U{85}' || c == '\U{a0}' || c == '\U{1680}'
    || '\U{2000}' <= c <= '\U{200a}' || c == '\U{2028}' || c == '\U{2029}'
    || c == '\U{202f}' || c == '\U{205f}' || c == '\U{3000}'
  }

  predicate AllSpace(s: string)
  {
    forall i :: 0 <= i < |s| ==> IsSpace(s[i])
  }

  /** An ASCII decimal digit. */
  predicate IsDigit(c: char)
  {
    '0' <= c <= '9'
  }

  /** An ASCII letter. */
  predicate IsLetter(c: char)
  {
    'a' <= c <= 'z' || 'A' <= c <= 'Z'
  }

  /** A character of `\w` (ASCII letters, digits and the underscore). */
  predicate IsWordChar(c: char)
  {
    IsLetter(c) || IsDigit(c) || c == '_'
  }

  /** The length of the run of `\w` characters (ASCII) in `s` from index `i`. */
  function WordRun(s: string, i: nat): (n: nat)
    requires i <= |s|
    ensures i + n <= |s|
    ensures forall j :: i <= j < i + n ==> IsWordChar(s[j])
    ensures i + n < |s| ==> !IsWordChar(s[i + n])
    decreases |s| - i
  {
    if i < |s| && IsWordChar(s[i]) then 1 + WordRun(s, i + 1) else 0
  }

  /** The length of the run of characters satisfying `p` in `s` from index `i`: a greedy `[...]*`. */
  function Run(s: string, i: nat, p: char -> bool): (n: nat)
    requires i <= |s|
    ensures i + n <= |s|
    ensures forall j :: i <= j < i + n ==> p(s[j])
    ensures i + n < |s| ==> !p(s[i + n])
    decreases |s| - i
  {
    if i < |s| && p(s[i]) then 1 + Run(s, i + 1, p) else 0
  }

  /** A run of `n` characters satisfying `p`, ended by one that does not or by the end of `s`, is the run. */
  lemma {:induction false} RunExact(s: string, i: nat, n: nat, p: char -> bool)
    requires i + n <= |s|
    requires forall j :: i <= j < i + n ==> p(s[j])
    requires i + n == |s| || !p(s[i + n])
    ensures Run(s, i, p) == n
    decreases n
  {
    if n > 0 {
      RunExact(s, i + 1, n - 1, p);
    }
  }

  /** The number of whitespace characters `s` starts with. */
  function LeadingSpace(s: string): (n: nat)
    ensures n <= |s|
    ensures forall i :: 0 <= i < n ==> IsSpace(s[i])
    ensures n < |s| ==> !IsSpace(s[n])
  {
    if s != [] && IsSpace(s[0]) then
      var n := 1 + LeadingSpace(s[1..]);
      assert forall i :: 1 <= i < n ==> s[i] == s[1..][i - 1];
      n
    else 0
  }

  /** Whitespace followed by a string that does not open with whitespace: the leading run is the whitespace. */
  lemma {:induction false} LeadingSpaceOf(pad: string, t: string)
    requires AllSpace(pad) && t != [] && !IsSpace(t[0])
    ensures LeadingSpace(pad + t) == |pad|
    decreases |pad|
  {
    if pad == [] {
      assert pad + t == t;
    } else {
      assert (pad + t)[1..] == pad[1..] + t;
      LeadingSpaceOf(pad[1..], t);
    }
  }

  /** The number of whitespace characters `s` ends with. */
  function TrailingSpace(s: string): (n: nat)
    ensures n <= |s|
    ensures forall i :: |s| - n <= i < |s| ==> IsSpace(s[i])
    ensures n < |s| ==> !IsSpace(s[|s| - n - 1])
  {
    if s != [] && IsSpace(s[|s| - 1]) then
      var p := s[..|s| - 1];
      var n := 1 + TrailingSpace(p);
      assert forall i :: |s| - n <= i < |s| - 1 ==> s[i] == p[i];
      n
    else 0
  }

  /** `s.lstrip()`: `s` without its leading whitespace. */
  function LStrip(s: string): (r: string)
  {
    s[LeadingSpace(s)..]
  }

  /** `s.rstrip()`: `s` without its trailing whitespace. */
  function RStrip(s: string): (r: string)
  {
    s[..|s| - TrailingSpace(s)]
  }

  /** Where the text of `s` without surrounding whitespace ends. */
  function StripEnd(s: string): (e: nat)
    ensures LeadingSpace(s) <= e <= |s|
    ensures LeadingSpace(s) < |s| ==> e == |s| - TrailingSpace(s)
  {
    var a := LeadingSpace(s);
    if a == |s| then a
    else
      assert !IsSpace(s[a]);
      |s| - TrailingSpace(s)
  }

  /** `s.strip()`: `s` without leading and trailing whitespace. */
  function Strip(s: string): (r: string)
    ensures |r| <= |s|
    ensures r == [] || (!IsSpace(r[0]) && !IsSpace(r[|r| - 1]))
    ensures r == [] <==> AllSpace(s)
  {
    var a := LeadingSpace(s);
    var e := StripEnd(s);
    assert a < |s| ==> !IsSpace(s[e - 1]);
    assert a == |s| ==> AllSpace(s);
    s[a..e]
  }

  /** A string with no surrounding whitespace is its own strip. */
  lemma {:induction false} StripOfStripped(s: string)
    requires s == [] || (!IsSpace(s[0]) && !IsSpace(s[|s| - 1]))
    ensures Strip(s) == s
  {
    if s != [] {
      assert LeadingSpace(s) == 0 && TrailingSpace(s) == 0;
    }
  }

  /** After leading whitespace, the first other character opens the stripped text. */
  lemma {:induction false} StripFirst(s: string, i: nat)
    requires i < |s| && !IsSpace(s[i]) && forall j :: 0 <= j < i ==> IsSpace(s[j])
    ensures Strip(s) != [] && Strip(s)[0] == s[i]
  {
    assert LeadingSpace(s) == i;
  }

  /** The number of copies of `c` that `s` starts with. */
  function LeadingCount(s: string, c: char): (n: nat)
    ensures n <= |s|
    ensures forall i :: 0 <= i < n ==> s[i] == c
    ensures n < |s| ==> s[n] != c
  {
    if s != [] && s[0] == c then
      var n := 1 + LeadingCount(s[1..], c);
      assert forall i :: 1 <= i < n ==> s[i] == s[1..][i - 1];
      n
    else 0
  }

  /** `s.lstrip(c)` for a one-character argument: `s` without its leading `c`s. */
  function LStripChar(s: string, c: char): (r: string)
  {
    s[LeadingCount(s, c)..]
  }

  /** `s.startswith(p)`. */
  predicate StartsWith(s: string, p: string)
  {
    |p| <= |s| && s[..|p|] == p
  }

  /** `s.endswith(p)`. */
  predicate EndsWith(s: string, p: string)
  {
    |p| <= |s| && s[|s| - |p|..] == p
  }

  /** `p` occurs in `s` starting at index `i`. */
  predicate OccursAt(s: string, p: string, i: nat)
  {
    i + |p| <= |s| && s[i..i + |p|] == p
  }

  /** The least index at or after `from` where `p` occurs, or -1. */
  function FindFrom(s: string, p: string, from: nat): (r: int)
    requires from <= |s|
    ensures r == -1 || (from <= r <= |s| - |p| && OccursAt(s, p, r))
    ensures r == -1 ==> forall j :: from <= j <= |s| ==> !OccursAt(s, p, j)
    ensures r != -1 ==> forall j :: from <= j < r ==> !OccursAt(s, p, j)
    decreases |s| - from
  {
    if OccursAt(s, p, from) then from
    else if from == |s| then -1
    else FindFrom(s, p, from + 1)
  }

  /** `s.find(p)`: the least index where `p` occurs, or -1 when it does not. */
  function Find(s: string, p: string): (r: int)
    ensures r == -1 || (0 <= r <= |s| - |p| && OccursAt(s, p, r))
    ensures r == -1 <==> forall j :: 0 <= j <= |s| ==> !OccursAt(s, p, j)
    ensures r != -1 ==> forall j :: 0 <= j < r ==> !OccursAt(s, p, j)
  {
    FindFrom(s, p, 0)
  }

  /** `p in s`. */
  predicate Contains(s: string, p: string)
  {
    Find(s, p) != -1
  }

  /** An occurrence anywhere means `p in s`. */
  lemma {:induction false} OccursContains(s: string, p: string, i: nat)
    requires OccursAt(s, p, i)
    ensures Contains(s, p)
  {
  }

  /** How many times the character `c` occurs in `s`. */
  function Count(s: string, c: char): (n: nat)
    ensures n <= |s|
    ensures n == 0 <==> c !in s
  {
    if s == [] then 0
    else (if s[0] == c then 1 else 0) + Count(s[1..], c)
  }

  /** `sep.join(xs)`. */
  function Join(xs: seq<string>, sep: string): (r: string)
    ensures xs == [] ==> r == []
    ensures |xs| == 1 ==> r == xs[0]
  {
    if xs == [] then []
    else if |xs| == 1 then xs[0]
    else xs[0] + sep + Join(xs[1..], sep)
  }

  /** The index of the first `c` in `s`, or `|s|` when there is none. */
  function IndexOfChar(s: string, c: char): (i: nat)
    ensures i <= |s|
    ensures c !in s[..i]
    ensures i < |s| ==> s[i] == c
    ensures i == |s| <==> c !in s
  {
    if s == [] then 0
    else if s[0] == c then 0
    else 1 + IndexOfChar(s[1..], c)
  }

  /** `s.split(c)` for a one-character separator: the pieces between the `c`s. */
  function Split(s: string, c: char): (r: seq<string>)
    ensures |r| >= 1
    ensures forall k :: 0 <= k < |r| ==> c !in r[k]
    ensures |r| == Count(s, c) + 1
    decreases |s|
  {
    var i := IndexOfChar(s, c);
    if i == |s| then [s]
    else
      assert s == s[..i] + [c] + s[i + 1..];
      CountConcat(s[..i] + [c], s[i + 1..], c);
      CountConcat(s[..i], [c], c);
      [s[..i]] + Split(s[i + 1..], c)
  }

  lemma {:induction false} CountConcat(a: string, b: string, c: char)
    ensures Count(a + b, c) == Count(a, c) + Count(b, c)
  {
    if a != [] {
      assert (a + b)[0] == a[0];
      assert (a + b)[1..] == a[1..] + b;
      CountConcat(a[1..], b, c);
    } else {
      assert a + b == b;
    }
  }

  /** Joining the pieces of a split with the separator gives the string back. */
  lemma {:induction false} JoinSplit(s: string, c: char)
    ensures Join(Split(s, c), [c]) == s
    decreases |s|
  {
    var i := IndexOfChar(s, c);
    if i < |s| {
      var rest := Split(s[i + 1..], c);
      assert Split(s, c) == [s[..i]] + rest;
      assert ([s[..i]] + rest)[1..] == rest;
      assert Join(Split(s, c), [c]) == s[..i] + [c] + Join(rest, [c]);
      JoinSplit(s[i + 1..], c);
      assert s == s[..i] + [c] + s[i + 1..];
    }
  }

  /** Splitting a join of separator-free pieces gives the pieces back. */
  lemma {:induction false} SplitJoin(xs: seq<string>, c: char)
    requires |xs| >= 1
    requires forall k :: 0 <= k < |xs| ==> c !in xs[k]
    ensures Split(Join(xs, [c]), c) == xs
    decreases |xs|
  {
    if |xs| > 1 {
      assert xs == [xs[0]] + xs[1..];
      var rest := Join(xs[1..], [c]);
      assert Split(rest, c) == xs[1..] by {
        SplitJoin(xs[1..], c);
      }
      assert Split(Join(xs, [c]), c) == [xs[0]] + xs[1..] by {
        assert Join(xs, [c]) == xs[0] + [c] + rest;
        assert c !in xs[0];
        SplitCons(xs[0], rest, c);
      }
    } else {
      assert IndexOfChar(xs[0], c) == |xs[0]|;
    }
  }

  /** A character in neither the pieces nor the separator is not in their join. */
  lemma {:induction false} JoinAvoids(xs: seq<string>, sep: string, c: char)
    requires c !in sep
    requires forall k :: 0 <= k < |xs| ==> c !in xs[k]
    ensures c !in Join(xs, sep)
    decreases |xs|
  {
    if |xs| > 1 {
      JoinAvoids(xs[1..], sep, c);
      assert c !in xs[0];
    }
  }

  /** A join begins with its first piece. */
  lemma {:induction false} JoinStarts(xs: seq<string>, sep: string)
    requires |xs| >= 1 && xs[0] != []
    ensures Join(xs, sep) != [] && Join(xs, sep)[0] == xs[0][0]
  {
  }

  /** Splitting `a + [c] + b` with no `c` in `a` peels `a` off as the first piece. */
  lemma {:induction false} SplitCons(a: string, b: string, c: char)
    requires c !in a
    ensures Split(a + [c] + b, c) == [a] + Split(b, c)
  {
    var s := a + [c] + b;
    FirstSeparator(a, b, c);
    assert s[..|a|] == a;
    assert s[|a| + 1..] == b;
  }

  /** In `a + [c] + b` with no `c` in `a`, the first `c` sits right after `a`. */
  lemma {:induction false} FirstSeparator(a: string, b: string, c: char)
    requires c !in a
    ensures IndexOfChar(a + [c] + b, c) == |a|
    decreases |a|
  {
    if a != [] {
      assert (a + [c] + b)[1..] == a[1..] + [c] + b;
      FirstSeparator(a[1..], b, c);
    }
  }

  /**
   * `s.split(c, 1)`: the text before the first `c` and the text after it, or
   * `NoSeparator` when `c` does not occur (Python then returns the one-element list).
   */
  function SplitOnce(s: string, c: char): (r: Halves)
    ensures r.NoSeparator? <==> c !in s
    ensures r.Parted? ==> s == r.before + [c] + r.after && c !in r.before
  {
    var i := IndexOfChar(s, c);
    if i == |s| then NoSeparator
    else
      assert s == s[..i] + [c] + s[i + 1..];
      Parted(s[..i], s[i + 1..])
  }

  /** A one-shot split of `a + [c] + b` with no `c` in `a` gives back `a` and `b`. */
  lemma {:induction false} SplitOnceAt(a: string, b: string, c: char)
    requires c !in a
    ensures SplitOnce(a + [c] + b, c) == Parted(a, b)
  {
    var s := a + [c] + b;
    FirstSeparator(a, b, c);
    assert s[..|a|] == a;
    assert s[|a| + 1..] == b;
  }

  /** The result of a one-shot split. */
  datatype Halves = NoSeparator | Parted(before: string, after: string)

  /**
   * `s.replace(pat, repl)`: every non-overlapping occurrence of `pat`, scanned
   * left to right, replaced by `repl` (an empty `pat` matches between every two
   * characters, as in Python).
   */
  function ReplaceAll(s: string, pat: string, repl: string): (r: string)
    decreases |s|
  {
    if pat == [] then
      if s == [] then repl else repl + [s[0]] + ReplaceAll(s[1..], pat, repl)
    else if StartsWith(s, pat) then repl + ReplaceAll(s[|pat|..], pat, repl)
    else if s == [] then []
    else [s[0]] + ReplaceAll(s[1..], pat, repl)
  }

  /** Replacing a non-empty `pat` that does not occur leaves `s` as it is. */
  lemma {:induction false} ReplaceAbsent(s: string, pat: string, repl: string)
    requires pat != []
    requires forall j :: 0 <= j <= |s| ==> !OccursAt(s, pat, j)
    ensures ReplaceAll(s, pat, repl) == s
    decreases |s|
  {
    if s != [] {
      assert !OccursAt(s, pat, 0);
      forall j | 0 <= j <= |s| - 1
        ensures !OccursAt(s[1..], pat, j)
      {
        assert !OccursAt(s, pat, j + 1);
        if j + |pat| <= |s| - 1 {
          assert s[1..][j..j + |pat|] == s[j + 1..j + 1 + |pat|];
        }
      }
      ReplaceAbsent(s[1..], pat, repl);
    }
  }

  /** `str.upper()` on one character, for ASCII letters. */
  function UpperChar(c: char): (u: char)
    ensures 'a' <= c <= 'z' ==> u as int == c as int - 32
    ensures !('a' <= c <= 'z') ==> u == c
  {
    if 'a' <= c <= 'z' then (c as int - 32) as char else c
  }

  /** `s.upper()`, for ASCII letters. */
  function Upper(s: string): (r: string)
    ensures |r| == |s|
    ensures forall i :: 0 <= i < |s| ==> r[i] == UpperChar(s[i])
  {
    seq(|s|, i requires 0 <= i < |s| => UpperChar(s[i]))
  }

  /** Upper-casing twice is upper-casing once. */
  lemma {:induction false} UpperIdempotent(s: string)
    ensures Upper(Upper(s)) == Upper(s)
  {
    assert forall i :: 0 <= i < |s| ==> UpperChar(UpperChar(s[i])) == UpperChar(s[i]);
  }

  /** Two characters equal under `re.IGNORECASE`, for ASCII letters. */
  predicate SameIgnoringCase(c: char, d: char)
  {
    UpperChar(c) == UpperChar(d)
  }
}
