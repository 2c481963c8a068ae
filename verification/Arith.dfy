/** Small facts about multiplication, division and remainder that the solver does not find by itself. */
module Arith {

  function Min(a: int, b: int): int { if a < b then a else b }

  lemma DivDef(x: int, m: int)
    requires m > 0
    ensures x == (x / m) * m + x % m && 0 <= x % m < m
  {
  }

  lemma MulAtLeast(d: int, m: int)
    requires m > 0
    ensures d >= 1 ==> d * m >= m
    ensures d <= -1 ==> d * m <= -m
  {
    if d >= 1 { assert (d - 1) * m >= 0; }
    if d <= -1 { assert (d + 1) * m <= 0; }
  }

  lemma MulSub(a: int, b: int, m: int)
    ensures (a - b) * m == a * m - b * m
  {
  }

  /** A quotient with a remainder in range are the quotient and the remainder. */
  lemma RemainderIs(x: int, m: int, q: int, r: int)
    requires 0 <= r < m && x == q * m + r
    ensures x % m == r && x / m == q
  {
    DivDef(x, m);
    MulSub(q, x / m, m);
    MulAtLeast(q - x / m, m);
  }

  lemma ModMod(x: int, m: int)
    requires m > 0
    ensures (x % m) % m == x % m
  {
    DivDef(x, m);
    RemainderIs(x % m, m, 0, x % m);
  }
}
