/** Quotients and remainders, named once so that no proof has to search for them. */
module Division {

  lemma {:induction false} ProductGrows(d: int, a: int, b: int)
    requires d > 0 && a < b
    ensures d * a + d <= d * b
    decreases b - a
  {
    assert d * (a + 1) == d * a + d;
    if a + 1 < b { ProductGrows(d, a + 1, b); }
  }

  /** The quotient and the remainder are the only numbers that fit. */
  lemma DivMod(n: int, d: int, q: int, r: int)
    requires d > 0 && 0 <= r < d && n == d * q + r
    ensures n / d == q && n % d == r
  {
    var (p, s) := (n / d, n % d);
    assert n == d * p + s && 0 <= s < d;
    if q < p { ProductGrows(d, q, p); }
    if p < q { ProductGrows(d, p, q); }
  }
}
