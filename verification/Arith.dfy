/** Powers of two, and division by a variable. */
module Arith {

  function Pow2(n: nat): (p: nat)
    ensures p > 0
  {
    if n == 0 then 1 else 2 * Pow2(n - 1)
  }

  lemma {:induction false} Pow2Increases(i: nat, j: nat)
    requires i < j
    ensures 2 * Pow2(i) <= Pow2(j)
  {
    if i + 1 < j { Pow2Increases(i, j - 1); }
  }

  lemma {:induction false} Pow2Adds(i: nat, j: nat)
    ensures Pow2(i + j) == Pow2(i) * Pow2(j)
  {
    if j > 0 {
      Pow2Adds(i, j - 1);
      assert Pow2(i) * (2 * Pow2(j - 1)) == 2 * (Pow2(i) * Pow2(j - 1));
    }
  }

  lemma MultipleBounds(d: int, y: int)
    requires y > 0
    ensures d >= 1 ==> d * y >= y
    ensures d <= -1 ==> d * y <= -y
  {}

  /** Quotient and remainder are what makes x == y * q + r with 0 <= r < y. */
  lemma DivModIs(x: int, y: int, q: int, r: int)
    requires y > 0 && x == y * q + r && 0 <= r < y
    ensures x / y == q && x % y == r
  {
    var q', r' := x / y, x % y;
    assert (q' - q) * y == r - r';
    MultipleBounds(q' - q, y);
  }

  lemma Regroup(p: int, q: int, a: int, b: int)
    ensures p * q * a + p * b == p * (q * a + b)
  {}

  lemma ModOfMod(x: int, p: int, q: int, m: int)
    requires p > 0 && m > 0 && m == p * q
    ensures x % m % p == x % p
  {
    var a, r := x / m, x % m;
    var b, s := r / p, r % p;
    assert x == m * a + r && r == p * b + s;
    Regroup(p, q, a, b);
    DivModIs(x, p, q * a + b, s);
  }
}
