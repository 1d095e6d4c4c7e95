/** Facts about integer multiplication and Euclidean division that the solver does not
    find by itself. */
module Arith {

  /** Multiplying by a non-negative factor keeps the order, by at least one factor per step. */
  lemma MulStep(a: int, b: int, c: int)
    ensures a < b && c >= 0 ==> a * c + c <= b * c
  {
    var d := b - a;
    assert b * c == a * c + d * c;
    assert d >= 1 && c >= 0 ==> d * c >= c;
  }

  /** Euclidean division has exactly one quotient and remainder. */
  lemma DivModUnique(n: int, rows: int, q: int, r: int)
    requires rows > 0 && 0 <= r < rows && n == q * rows + r
    ensures n / rows == q && n % rows == r
  {
    var q', r' := n / rows, n % rows;
    assert n == q' * rows + r' && 0 <= r' < rows;
    MulStep(q', q, rows);
    MulStep(q, q', rows);
  }
}
