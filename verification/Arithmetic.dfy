/** Integer division: C++ division truncates toward zero, Dafny's is Euclidean. */
module Arithmetic {

  /** `/` and `%` of the source: truncation toward zero. */
  function TruncDiv(a: int, b: int): int
    requires b > 0
  {
    if a >= 0 then a / b else -((-a) / b)
  }

  function TruncMod(a: int, b: int): int
    requires b > 0
  {
    a - b * TruncDiv(a, b)
  }

  lemma DivUnique(a: int, b: int, q: int, r: int)
    requires b > 0 && 0 <= r < b && a == b * q + r
    ensures a / b == q && a % b == r
  {
    var d := a / b - q;
    assert b * d == r - a % b;
    MulBound(b, d);
  }

  lemma MulBound(b: int, d: int)
    requires b > 0
    ensures d >= 1 ==> b * d >= b
    ensures d <= -1 ==> b * d <= -b
  {
  }

  lemma TruncModBounds(a: int, b: int)
    requires b > 0
    ensures -b < TruncMod(a, b) < b
    ensures a >= 0 ==> TruncMod(a, b) == a % b
  {
    if a < 0 { assert -a == b * ((-a) / b) + (-a) % b; } else { assert a == b * (a / b) + a % b; }
  }

  lemma ModSmall(x: int, m: int)
    requires 0 <= x < m
    ensures x % m == x
  {
  }

  lemma ModAdd(a: int, y: int, m: int)
    requires m > 0
    ensures (a % m + y) % m == (a + y) % m
  {
    var q, q' := a / m, (a % m + y) / m;
    assert a + y == m * (q + q') + (a % m + y) % m;
    DivUnique(a + y, m, q + q', (a % m + y) % m);
  }

  lemma MulMonotone(n: int, m: int, h: int)
    requires n <= m && h >= 0
    ensures n * h <= m * h
  {
    assert (m - n) * h >= 0;
  }
}
