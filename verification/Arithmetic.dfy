/** Facts about products and floor division. */
module Arithmetic {

  lemma MulAtLeast(d: int, w: int)
    requires w > 0
    ensures d >= 1 ==> d * w >= w
    ensures d <= -1 ==> d * w <= -w
  {
    if d >= 1 {
      assert (d - 1) * w >= 0;
    } else if d <= -1 {
      assert (-d - 1) * w >= 0;
    }
  }

  /** Quotient and remainder of a division are unique. */
  lemma DivModUnique(w: int, q: int, r: int)
    requires 0 <= r < w
    ensures (q * w + r) / w == q && (q * w + r) % w == r
  {
    var k := q * w + r;
    var q', r' := k / w, k % w;
    assert k == q' * w + r';
    assert (q - q') * w == r' - r;
    MulAtLeast(q - q', w);
  }

  lemma MulMonotone(a: nat, b: nat, c: nat)
    requires a <= b
    ensures c * a <= c * b
  {
  }

  lemma DivMonotone(a: nat, b: nat, c: nat)
    requires a <= b && c > 0
    ensures a / c <= b / c
  {
    var q, q', r, r' := a / c, b / c, a % c, b % c;
    assert a == q * c + r && b == q' * c + r';
    assert (q' - q) * c == b - a + r - r';
    MulAtLeast(q' - q, c);
  }

  /** Division and remainder of natural numbers are natural numbers. */
  lemma DivModNat(a: nat, b: nat)
    requires b > 0
    ensures 0 <= a / b && 0 <= a % b < b && a == b * (a / b) + a % b
  {
  }
}
