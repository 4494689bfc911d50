/** Quotients and remainders are unique. */
module Arithmetic {

  lemma MulAtLeast(m: int, t: int)
    requires m > 0 && t >= 1
    ensures m * t >= m
  {
  }

  lemma DivModUnique(m: int, a: int, x: int, b: int, y: int)
    requires m > 0 && 0 <= x < m && 0 <= y < m && m * a + x == m * b + y
    ensures a == b && x == y
  {
    assert m * (a - b) == m * a - m * b && m * (b - a) == m * b - m * a;
    if a > b { MulAtLeast(m, a - b); } else if a < b { MulAtLeast(m, b - a); }
  }
}
