/** Facts about Euclidean division that the wrap-around arithmetic of the
    manager's counters needs. */
module Arith {

  lemma {:induction false} MulAtLeast(d: int, m: int)
    requires m > 0 && d >= 1
    ensures d * m >= m
  {
    assert d * m == (d - 1) * m + m;
  }

  /** Euclidean division is determined by a quotient and an in-range remainder. */
  lemma {:induction false} ModUnique(a: int, q: int, r: int, m: int)
    requires m > 0 && 0 <= r < m && a == q * m + r
    ensures a % m == r && a / m == q
  {
    var d := q - a / m;
    assert a == (a / m) * m + a % m;
    assert d * m == a % m - r;
    if d >= 1 {
      MulAtLeast(d, m);
    } else if d <= -1 {
      MulAtLeast(-d, m);
    }
  }

  /** Counting up by one wraps from `m - 1` to 0. */
  lemma {:induction false} ModStep(x: int, m: int)
    requires m > 0
    ensures (x + 1) % m == if x % m == m - 1 then 0 else x % m + 1
  {
    var q := x / m;
    assert x == q * m + x % m;
    if x % m == m - 1 {
      ModUnique(x + 1, q + 1, 0, m);
    } else {
      ModUnique(x + 1, q, x % m + 1, m);
    }
  }

  /** Adding a multiple of the modulus does not change the remainder. */
  lemma {:induction false} ModShift(a: int, k: int, m: int)
    requires m > 0
    ensures (a + k * m) % m == a % m
  {
    var q := a / m;
    assert a == q * m + a % m;
    assert a + k * m == (q + k) * m + a % m;
    ModUnique(a + k * m, q + k, a % m, m);
  }
}
