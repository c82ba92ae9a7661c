/**
 * Python's `list.sort(key=...)` and `sorted(..., key=...)`: a stable sort by a
 * key. The model is an insertion sort over a total preorder `le` ("the key of
 * `a` is at most the key of `b`"). Sorted order, the same multiset of
 * elements, and keeping equal-key elements in their original order together
 * pin down a stable sort's output, so these three facts say the model gives
 * what Python gives.
 */
module Sorting {

  /** `le` is total and transitive, as the order on any sort key is. */
  ghost predicate TotalPreorder<T(!new)>(le: (T, T) -> bool)
  {
    && (forall a, b :: le(a, b) || le(b, a))
    && (forall a, b, c :: le(a, b) && le(b, c) ==> le(a, c))
  }

  /** `a` and `b` have equal keys. */
  predicate Equivalent<T>(le: (T, T) -> bool, a: T, b: T)
  {
    le(a, b) && le(b, a)
  }

  /** Every element is at most every later one. */
  predicate Sorted<T>(xs: seq<T>, le: (T, T) -> bool)
  {
    forall i, j :: 0 <= i < j < |xs| ==> le(xs[i], xs[j])
  }

  /** `x` placed before the first element of `ys` that it is at most. */
  function Insert<T>(x: T, ys: seq<T>, le: (T, T) -> bool): (r: seq<T>)
    ensures multiset(r) == multiset(ys) + multiset{x}
  {
    if ys == [] then [x]
    else if le(x, ys[0]) then [x] + ys
    else
      assert ys == [ys[0]] + ys[1..];
      [ys[0]] + Insert(x, ys[1..], le)
  }

  /** The stable sort of `xs` by `le`: a permutation of `xs`. */
  function SortBy<T>(xs: seq<T>, le: (T, T) -> bool): (r: seq<T>)
    ensures multiset(r) == multiset(xs)
    ensures |r| == |xs|
  {
    if xs == [] then []
    else
      assert xs == [xs[0]] + xs[1..];
      Insert(xs[0], SortBy(xs[1..], le), le)
  }

  /** The elements of `xs` with the same key as `z`, in their order in `xs`. */
  function Matching<T>(xs: seq<T>, z: T, le: (T, T) -> bool): seq<T>
  {
    if xs == [] then []
    else (if Equivalent(le, xs[0], z) then [xs[0]] else []) + Matching(xs[1..], z, le)
  }

  /** Inserting into a sorted sequence keeps it sorted. */
  lemma {:induction false} InsertSorted<T(!new)>(x: T, ys: seq<T>, le: (T, T) -> bool)
    requires TotalPreorder(le)
    requires Sorted(ys, le)
    ensures Sorted(Insert(x, ys, le), le)
  {
    var r := Insert(x, ys, le);
    if ys == [] {
    } else if le(x, ys[0]) {
      forall i, j | 0 <= i < j < |r|
        ensures le(r[i], r[j])
      {
        if i == 0 && j > 1 {
          assert le(ys[0], ys[j - 1]);
        }
      }
    } else {
      var rest := Insert(x, ys[1..], le);
      InsertSorted(x, ys[1..], le);
      assert le(ys[0], x);
      forall k | 0 <= k < |rest|
        ensures le(ys[0], rest[k])
      {
        assert rest[k] in multiset(rest);
        assert rest[k] in multiset(ys[1..]) || rest[k] == x;
        if rest[k] != x {
          var m :| 0 <= m < |ys[1..]| && ys[1..][m] == rest[k];
          assert ys[m + 1] == rest[k];
        }
      }
      forall i, j | 0 <= i < j < |r|
        ensures le(r[i], r[j])
      {
        if i > 0 {
          assert r[i] == rest[i - 1] && r[j] == rest[j - 1];
        } else {
          assert r[j] == rest[j - 1];
        }
      }
    }
  }

  /** The sort's output is sorted. */
  lemma {:induction false} SortSorted<T(!new)>(xs: seq<T>, le: (T, T) -> bool)
    requires TotalPreorder(le)
    ensures Sorted(SortBy(xs, le), le)
  {
    if xs != [] {
      SortSorted(xs[1..], le);
      InsertSorted(xs[0], SortBy(xs[1..], le), le);
    }
  }

  /**
   * Inserting `x` adds it to its own key class just in front of the elements
   * already there: everything `x` is placed after has a smaller key.
   */
  lemma {:induction false} InsertMatching<T(!new)>(x: T, ys: seq<T>, z: T, le: (T, T) -> bool)
    requires TotalPreorder(le)
    ensures Matching(Insert(x, ys, le), z, le)
         == (if Equivalent(le, x, z) then [x] else []) + Matching(ys, z, le)
  {
    var mx: seq<T> := if Equivalent(le, x, z) then [x] else [];
    if ys == [] {
      assert Matching([x], z, le) == mx + Matching([], z, le);
    } else if le(x, ys[0]) {
      assert ([x] + ys)[1..] == ys;
      assert Matching([x] + ys, z, le) == mx + Matching(ys, z, le);
    } else {
      var m0: seq<T> := if Equivalent(le, ys[0], z) then [ys[0]] else [];
      var rest := Insert(x, ys[1..], le);
      InsertMatching(x, ys[1..], z, le);
      assert ([ys[0]] + rest)[1..] == rest;
      assert Matching([ys[0]] + rest, z, le) == m0 + Matching(rest, z, le);
      assert Matching(ys, z, le) == m0 + Matching(ys[1..], z, le);
      if Equivalent(le, x, z) {
        assert !Equivalent(le, ys[0], z);
        assert m0 == [];
      } else {
        assert mx == [];
      }
    }
  }

  /** Elements with equal keys keep their original relative order. */
  lemma {:induction false} SortStable<T(!new)>(xs: seq<T>, z: T, le: (T, T) -> bool)
    requires TotalPreorder(le)
    ensures Matching(SortBy(xs, le), z, le) == Matching(xs, z, le)
  {
    if xs != [] {
      SortStable(xs[1..], z, le);
      InsertMatching(xs[0], SortBy(xs[1..], le), z, le);
    }
  }

  /** Comparing integer keys. */
  function ByIntKey<T(!new)>(key: T -> int): (le: (T, T) -> bool)
    ensures forall a, b :: le(a, b) <==> key(a) <= key(b)
  {
    (a, b) => key(a) <= key(b)
  }

  lemma {:induction false} IntKeyOrder<T(!new)>(key: T -> int)
    ensures TotalPreorder(ByIntKey(key))
  {
  }

  /** Python's `<=` on strings: lexicographic by code point, a prefix first. */
  predicate StrLe(a: string, b: string)
  {
    if a == [] then true
    else if b == [] then false
    else if a[0] != b[0] then a[0] < b[0]
    else StrLe(a[1..], b[1..])
  }

  lemma {:induction false} StrLeTotal(a: string, b: string)
    ensures StrLe(a, b) || StrLe(b, a)
  {
    if a != [] && b != [] && a[0] == b[0] {
      StrLeTotal(a[1..], b[1..]);
    }
  }

  lemma {:induction false} StrLeTransitive(a: string, b: string, c: string)
    requires StrLe(a, b) && StrLe(b, c)
    ensures StrLe(a, c)
  {
    if a != [] && b != [] && c != [] && a[0] == b[0] && b[0] == c[0] {
      StrLeTransitive(a[1..], b[1..], c[1..]);
    }
  }

  /** Comparing string keys. */
  function ByStringKey<T(!new)>(key: T -> string): (le: (T, T) -> bool)
    ensures forall a, b :: le(a, b) <==> StrLe(key(a), key(b))
  {
    (a, b) => StrLe(key(a), key(b))
  }

  lemma {:induction false} StringKeyOrder<T(!new)>(key: T -> string)
    ensures TotalPreorder(ByStringKey(key))
  {
    var le := ByStringKey(key);
    forall a, b
      ensures le(a, b) || le(b, a)
    {
      StrLeTotal(key(a), key(b));
    }
    forall a, b, c | le(a, b) && le(b, c)
      ensures le(a, c)
    {
      StrLeTransitive(key(a), key(b), key(c));
    }
  }
}
