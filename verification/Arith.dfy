/** Facts of non-linear arithmetic, proved once. */
module Arith {
  lemma {:induction false} MulMonotone(a: int, b: int, n: int)
    requires a <= b && n >= 0
    ensures a * n <= b * n
    decreases b - a
  {
    if a < b { MulMonotone(a, b - 1, n); }
  }

  lemma DivUnique(x: int, n: int, q: int, r: int)
    requires n > 0 && x == q * n + r && 0 <= r < n
    ensures x / n == q && x % n == r
  {
    var d := q - x / n;
    assert d * n == x % n - r;
    if d > 0 { MulMonotone(1, d, n); }
    if d < 0 { MulMonotone(d, -1, n); }
  }

  lemma MulAssoc(a: int, b: int, c: int)
    ensures a * (b * c) == (a * b) * c
  {
  }

  lemma Distribute(a: int, b: int, c: int)
    ensures (a + b) * c == a * c + b * c
  {
  }

  lemma SameRest(c: nat, d: nat, n: nat)
    requires n > 0 && c % n == d % n && c - d < n && d - c < n
    ensures c == d
  {
    var e := c / n - d / n;
    assert c == c / n * n + c % n && d == d / n * n + d % n;
    Distribute(e, d / n, n);
    if e > 0 { MulMonotone(1, e, n); }
    if e < 0 { MulMonotone(e, -1, n); }
  }
}
