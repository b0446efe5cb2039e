/** Division with remainder. */
module Division {
  /** Quotient and remainder are unique. */
  lemma DivisionUnique(a: nat, m: nat, q: nat, r: nat)
    requires m > 0 && a == m * q + r && r < m
    ensures a % m == r && a / m == q
  {
    var q', r' := a / m, a % m;
    assert (q - q') * m == m * q - m * q' == r' - r;
    MultipleAtLeast(q - q', m);
  }

  lemma MultipleAtLeast(d: int, m: nat)
    ensures d >= 1 ==> d * m >= m
    ensures d <= -1 ==> d * m + m <= 0
  {
    assert d * m == (d - 1) * m + m == (d + 1) * m - m;
  }
}
