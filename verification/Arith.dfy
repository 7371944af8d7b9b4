/** Small facts about multiplication, division and remainders. */
module Arith {
  /** One mixed-radix digit. */
  lemma Digit(v: nat, a: nat, m: nat, q: nat)
    requires a < m && v == a + m * q
    ensures v / m == q && v % m == a
  {
    var d := q - v / m;
    assert m * d == v % m - a;
    assert d >= 1 ==> m * d >= m;
    assert d <= -1 ==> m * d + m <= 0;
  }

  lemma Scale(low: nat, x: nat, y: nat)
    ensures low * (x + 512 * y) == low * x + low * 512 * y
  {
  }

  lemma Monotone(low: nat, x: nat, y: nat)
    requires x <= y
    ensures low * x <= low * y
  {
  }

  lemma Regroup(low: nat, rest: nat, q: nat)
    ensures low * 512 * rest * q == low * (512 * (rest * q))
  {
  }

  lemma Spread(low: nat, x: nat, y: nat)
    ensures low * (x + y) == low * x + low * y
  {
  }

  lemma Associate(a: nat, b: nat, c: nat)
    ensures a * b * c == a * (b * c)
  {
  }

  function Power256(n: nat): (p: nat)
    ensures p > 0
  {
    if n == 0 then 1 else 256 * Power256(n - 1)
  }
}
