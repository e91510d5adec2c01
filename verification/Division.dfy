/** Quotient and remainder are unique. */
module Division {
  lemma Divided(a: int, m: int, q: int, r: int)
    requires m > 0 && a == q * m + r && 0 <= r < m
    ensures a / m == q && a % m == r
  {
    var d := a / m - q;
    assert a == a / m * m + a % m;
    assert d * m == r - a % m;
    assert d > 0 ==> d * m >= m;
    assert d < 0 ==> d * m <= -m;
  }
}
