/**
 * Sequence combinators the scripts use as list comprehensions: mapping a
 * function over a list, and keeping the values that are present.
 */
module Seqs {
  import opened Results

  /** `[f(x) for x in xs]`. */
  function MapAll<A, B>(f: A -> B, xs: seq<A>): (ys: seq<B>)
    ensures |ys| == |xs|
    ensures forall k :: 0 <= k < |xs| ==> ys[k] == f(xs[k])
  {
    seq(|xs|, k requires 0 <= k < |xs| => f(xs[k]))
  }

  /** Mapping distributes over concatenation. */
  lemma {:induction false} MapAllAppend<A, B>(f: A -> B, a: seq<A>, b: seq<A>)
    ensures MapAll(f, a + b) == MapAll(f, a) + MapAll(f, b)
  {
    var l, r := MapAll(f, a + b), MapAll(f, a) + MapAll(f, b);
    forall k | 0 <= k < |l|
      ensures l[k] == r[k]
    {
      if k < |a| {
        assert (a + b)[k] == a[k];
      } else {
        assert (a + b)[k] == b[k - |a|];
      }
    }
  }

  /** The values of the present elements, in order: a loop that skips the `None`s. */
  function Somes<T>(xs: seq<Option<T>>): (r: seq<T>)
    ensures |r| <= |xs|
    ensures r == [] <==> forall k :: 0 <= k < |xs| ==> xs[k].None?
    ensures forall j :: 0 <= j < |r| ==> Some(r[j]) in xs
  {
    if xs == [] then []
    else
      var rest := Somes(xs[1..]);
      assert forall k :: 1 <= k < |xs| ==> xs[k] == xs[1..][k - 1];
      assert forall y :: y in xs[1..] ==> y in xs;
      match xs[0]
      case None => rest
      case Some(v) =>
        assert forall j :: 1 <= j < |[v] + rest| ==> ([v] + rest)[j] == rest[j - 1];
        [v] + rest
  }

  /** Skipping the `None`s of two lists one after the other joins their values. */
  lemma {:induction false} SomesAppend<T>(a: seq<Option<T>>, b: seq<Option<T>>)
    ensures Somes(a + b) == Somes(a) + Somes(b)
  {
    if a == [] {
      assert a + b == b;
    } else {
      assert (a + b)[0] == a[0];
      assert (a + b)[1..] == a[1..] + b;
      SomesAppend(a[1..], b);
    }
  }

  /** The lists one after the other: `sum(cs, [])`. */
  function Concat<T>(cs: seq<seq<T>>): (r: seq<T>)
  {
    if cs == [] then [] else cs[0] + Concat(cs[1..])
  }

  /** Concatenation distributes over joining two lists of lists. */
  lemma {:induction false} ConcatAppend<T>(a: seq<seq<T>>, b: seq<seq<T>>)
    ensures Concat(a + b) == Concat(a) + Concat(b)
  {
    if a == [] {
      assert a + b == b;
    } else {
      assert (a + b)[1..] == a[1..] + b;
      ConcatAppend(a[1..], b);
    }
  }

  /** The concatenation of all lists is that of the first `i` followed by that of the rest. */
  lemma {:induction false} ConcatSplit<T>(cs: seq<seq<T>>, i: nat)
    requires i <= |cs|
    ensures Concat(cs) == Concat(cs[..i]) + Concat(cs[i..])
  {
    var a, b := cs[..i], cs[i..];
    assert a + b == cs;
    ConcatAppend(a, b);
  }

  /** `[x for x in xs if p(x)]`. */
  function Filter<T>(p: T -> bool, xs: seq<T>): (r: seq<T>)
    ensures |r| <= |xs|
    ensures forall k :: 0 <= k < |r| ==> r[k] in xs && p(r[k])
    ensures forall k :: 0 <= k < |xs| && p(xs[k]) ==> xs[k] in r
  {
    if xs == [] then []
    else
      assert forall k :: 1 <= k < |xs| ==> xs[k] == xs[1..][k - 1];
      (if p(xs[0]) then [xs[0]] else []) + Filter(p, xs[1..])
  }

  /** Filtering two lists one after the other filters each. */
  lemma {:induction false} FilterAppend<T>(p: T -> bool, a: seq<T>, b: seq<T>)
    ensures Filter(p, a + b) == Filter(p, a) + Filter(p, b)
  {
    if a == [] {
      assert a + b == b;
    } else {
      assert (a + b)[0] == a[0];
      assert (a + b)[1..] == a[1..] + b;
      FilterAppend(p, a[1..], b);
    }
  }

  /** Filtering a list with one more element at the end. */
  lemma {:induction false} FilterSnoc<T>(p: T -> bool, a: seq<T>, x: T)
    ensures Filter(p, a + [x]) == Filter(p, a) + (if p(x) then [x] else [])
  {
    FilterAppend(p, a, [x]);
    assert [x][1..] == [];
  }

  /** Nothing passes the filter when no element satisfies it. */
  lemma {:induction false} FilterNone<T>(p: T -> bool, xs: seq<T>)
    requires forall k :: 0 <= k < |xs| ==> !p(xs[k])
    ensures Filter(p, xs) == []
  {
    if xs != [] {
      assert !p(xs[0]);
      FilterNone(p, xs[1..]);
    }
  }

  /** Filtering keeps a sub-multiset of the list. */
  lemma {:induction false} FilterSubset<T>(p: T -> bool, xs: seq<T>)
    ensures multiset(Filter(p, xs)) <= multiset(xs)
    decreases |xs|
  {
    if xs != [] {
      var front := xs[..|xs| - 1];
      assert xs == front + [xs[|xs| - 1]];
      FilterSnoc(p, front, xs[|xs| - 1]);
      FilterSubset(p, front);
    }
  }


  /**
   * A loop over `xs` that carries a state and may emit one value per
   * element: the values emitted, in order.
   */
  function ScanOut<S, A, R>(step: (S, A) -> (S, Option<R>), s: S, xs: seq<A>): seq<R>
  {
    if xs == [] then []
    else
      var next := step(s, xs[0]);
      (if next.1.Some? then [next.1.value] else []) + ScanOut(step, next.0, xs[1..])
  }

  /** The state such a loop ends in. */
  function ScanState<S, A, R>(step: (S, A) -> (S, Option<R>), s: S, xs: seq<A>): S
  {
    if xs == [] then s else ScanState(step, step(s, xs[0]).0, xs[1..])
  }

  /** Running the loop over two lists one after the other: the second starts in the state the first ends in. */
  lemma {:induction false} ScanAppend<S, A, R>(step: (S, A) -> (S, Option<R>), s: S, a: seq<A>, b: seq<A>)
    ensures ScanOut(step, s, a + b) == ScanOut(step, s, a) + ScanOut(step, ScanState(step, s, a), b)
    ensures ScanState(step, s, a + b) == ScanState(step, ScanState(step, s, a), b)
  {
    if a == [] {
      assert a + b == b;
    } else {
      var next := step(s, a[0]);
      var out: seq<R> := if next.1.Some? then [next.1.value] else [];
      assert (a + b)[0] == a[0];
      assert (a + b)[1..] == a[1..] + b;
      assert ScanOut(step, s, a + b) == out + ScanOut(step, next.0, a[1..] + b);
      assert ScanOut(step, s, a) == out + ScanOut(step, next.0, a[1..]);
      assert ScanState(step, s, a) == ScanState(step, next.0, a[1..]);
      ScanAppend(step, next.0, a[1..], b);
      assert out + (ScanOut(step, next.0, a[1..]) + ScanOut(step, ScanState(step, s, a), b))
             == (out + ScanOut(step, next.0, a[1..])) + ScanOut(step, ScanState(step, s, a), b);
    }
  }

  /** The loop over one element: what that step emits, and the state it leaves. */
  lemma {:induction false} ScanSingle<S, A, R>(step: (S, A) -> (S, Option<R>), s: S, x: A)
    ensures ScanOut(step, s, [x]) == (if step(s, x).1.Some? then [step(s, x).1.value] else [])
    ensures ScanState(step, s, [x]) == step(s, x).0
  {
    assert [x][1..] == [];
  }

  /** When every output of a step satisfies `p`, so does everything the loop emits. */
  lemma {:induction false} ScanOutAll<S, A, R>(step: (S, A) -> (S, Option<R>), s: S, xs: seq<A>, p: R -> bool)
    requires forall t: S, x: A :: step(t, x).1.Some? ==> p(step(t, x).1.value)
    ensures forall k :: 0 <= k < |ScanOut(step, s, xs)| ==> p(ScanOut(step, s, xs)[k])
    decreases |xs|
  {
    if xs != [] {
      var next := step(s, xs[0]);
      var here: seq<R> := if next.1.Some? then [next.1.value] else [];
      var rest := ScanOut(step, next.0, xs[1..]);
      ScanOutAll(step, next.0, xs[1..], p);
      assert ScanOut(step, s, xs) == here + rest;
    }
  }
}
