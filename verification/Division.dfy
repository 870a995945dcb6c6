/** Division with a divisor that is not a constant. */
module Division {
  lemma {:induction false} DivModIs(x: nat, n: nat, q: nat, r: nat)
    requires x == n * q + r && r < n
    ensures x / n == q && x % n == r
  {
    var d := x / n - q;
    assert n * d == r - x % n;
    Multiple(n, d);
  }

  lemma {:induction false} Multiple(n: int, d: int)
    requires n >= 0
    ensures d >= 1 ==> n * d >= n
    ensures d <= -1 ==> n * d <= -n
  {
    if d >= 1 { assert n * d == n + n * (d - 1); }
    if d <= -1 { assert n * d == -n + n * (d + 1); }
  }

  lemma {:induction false} ModMinus(x: nat, n: nat)
    requires 0 < n <= x
    ensures x % n == (x - n) % n
  {
    var q, r := (x - n) / n, (x - n) % n;
    assert x - n == n * q + r;
    assert n * (q + 1) == n * q + n;
    DivModIs(x, n, q + 1, r);
  }

  /** Less, with as much as n - 1 added each time, stays less. */
  lemma LessTimes(x: nat, y: nat, n: nat)
    requires y < x
    ensures 0 <= y * n && y * n + n <= x * n
  {
    assert x * n == (x - y) * n + y * n;
    assert (x - y) * n == (x - y - 1) * n + n;
  }
}
