/**
 * Facts about Euclidean division that the solver does not find on its own.
 * Dafny's `/` and `%` are Euclidean, as Python's are for a positive divisor.
 */
module Arithmetic {

  /** Python's `min(a, b)`. */
  function Min(a: int, b: int): int { if a <= b then a else b }

  /** Python's `max(a, b)`. */
  function Max(a: int, b: int): int { if a >= b then a else b }

  /** A non-zero multiple of `d` is at least `d` away from zero. */
  lemma {:induction false} MultipleGrows(d: int, m: int)
    requires d >= 0
    ensures m >= 1 ==> d * m >= d
    ensures m <= -1 ==> d * m <= -d
    decreases if m >= 0 then m else -m
  {
    if m > 1 {
      MultipleGrows(d, m - 1);
      assert d * m == d * (m - 1) + d;
    } else if m < -1 {
      MultipleGrows(d, m + 1);
      assert d * m == d * (m + 1) - d;
    }
  }

  /** Euclidean remainder is unique: `k == d * q + r` with `0 <= r < d` fixes `k % d`. */
  lemma {:induction false} ModUnique(k: int, d: nat, q: int, r: nat)
    requires 1 <= d && r < d && k == d * q + r
    ensures k % d == r
  {
    var q2 := k / d;
    assert k == d * q2 + k % d;
    assert d * (q2 - q) == r - k % d;
    MultipleGrows(d, q2 - q);
  }

  /** Adding the divisor does not change the remainder. */
  lemma {:induction false} AddPeriod(k: int, d: nat)
    requires d >= 1
    ensures (d + k) % d == k % d
  {
    var q := k / d;
    assert k == d * q + k % d;
    assert d + k == d * (q + 1) + k % d;
    ModUnique(d + k, d, q + 1, k % d);
  }

  /** The remainder by `a * b` splits into the remainder by `a` and the next digit in base `a`. */
  lemma {:induction false} ModProduct(v: int, a: nat, b: nat)
    requires a >= 1 && b >= 1
    ensures v % (a * b) == (v / a % b) * a + v % a
  {
    var q1, r1 := v / a, v % a;
    var q2, r2 := q1 / b, q1 % b;
    assert v == a * q1 + r1;
    assert q1 == b * q2 + r2;
    assert v == (a * b) * q2 + (a * r2 + r1);
    MultipleGrows(a, b - r2);
    assert a * (b - r2) == a * b - a * r2;
    ModUnique(v, a * b, q2, a * r2 + r1);
  }
}
