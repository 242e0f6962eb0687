/** Division and powers of ten. */
module Arithmetic {
  function Pow10(n: nat): (p: nat)
    ensures p > 0
  {
    if n == 0 then 1 else 10 * Pow10(n - 1)
  }

  lemma Far(t: int, d: int)
    requires d > 0
    ensures t >= 1 ==> t * d >= d
    ensures t <= -1 ==> t * d <= -d
  {
    if t >= 1 {
      assert (t - 1) * d >= 0;
    } else if t <= -1 {
      assert (-t - 1) * d >= 0;
    }
  }

  lemma Quotient(v: int, d: int, q: int, r: int)
    requires d > 0 && v == q * d + r && 0 <= r < d
    ensures v / d == q && v % d == r
  {
    var t := v / d - q;
    assert t * d == r - v % d;
    Far(t, d);
  }
}
