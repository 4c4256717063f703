/** Integer-division facts behind the page/offset arithmetic. */
module Arith {

  lemma MulLe(a: int, b: int, d: int)
    requires d >= 0 && a <= b
    ensures a * d <= b * d
  {
    assert b * d - a * d == (b - a) * d;
  }

  /** `q` is the quotient of `x` by `d` exactly when `x` lies in `[q*d, q*d + d)`. */
  lemma {:induction false} DivUnique(x: int, d: int, q: int)
    requires d >= 1 && q * d <= x < q * d + d
    ensures x / d == q && x % d == x - q * d
  {
    var r := x / d;
    assert x == r * d + x % d;
    if r > q {
      MulLe(q + 1, r, d);
      assert false;
    } else if r < q {
      MulLe(r + 1, q, d);
      assert false;
    }
  }

  /** The quotient of `x` by `d` places `x` inside its block of `d`. */
  lemma DivBounds(x: int, d: int)
    requires d >= 1
    ensures (x / d) * d <= x < (x / d) * d + d
  {
    assert x == (x / d) * d + x % d;
  }
}
