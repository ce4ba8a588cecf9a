/** The few nonlinear facts the proofs lean on. */
module Arith {

  lemma MulOrder(x: int, y: int, w: int)
    requires 0 < w
    ensures x <= y <==> x * w <= y * w
  {
    if x <= y {
      assert (y - x) * w >= 0;
      assert y * w - x * w == (y - x) * w;
    } else {
      assert (x - y) * w > 0;
      assert x * w - y * w == (x - y) * w;
    }
  }

  lemma MulMono(a: nat, b: nat, c: nat, d: nat)
    requires a <= b && c <= d
    ensures a * c <= b * d
  {
    assert (b - a) * c >= 0 && b * (d - c) >= 0;
    assert b * d - a * c == (b - a) * c + b * (d - c);
  }

  /** Quotient and remainder are determined by the division equation. */
  lemma DivisionIsUnique(x: int, w: int, q: int, r: int)
    requires 0 <= r < w && x == q * w + r
    ensures x / w == q && x % w == r
  {
    var d := q - x / w;
    assert d * w == q * w - x / w * w;
    assert -1 * w < d * w < 1 * w;
    MulOrder(1, d, w);
    MulOrder(d, -1, w);
  }

  /** x <= y / w says x * w <= y. */
  lemma FloorOrder(x: int, y: int, w: int)
    requires 0 < w
    ensures x <= y / w <==> x * w <= y
  {
    var q := y / w;
    assert y == q * w + y % w;
    MulOrder(x, q, w);
    MulOrder(q + 1, x, w);
    assert (q + 1) * w == q * w + w;
  }
}
