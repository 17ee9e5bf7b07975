/** The few `Math` operations the image code uses, on exact integers and
    non-negative rationals. */
module JsMath {

  function Max(a: int, b: int): int
  {
    if a >= b then a else b
  }

  function Min(a: int, b: int): int
  {
    if a <= b then a else b
  }

  /** `Math.round(a / d)` for a non-negative ratio: the integer nearest to a / d,
      a half rounded up. */
  function Round(a: nat, d: nat): (r: nat)
    requires d > 0
    ensures 2 * d * r <= 2 * a + d < 2 * d * r + 2 * d
  {
    (2 * a + d) / (2 * d)
  }

  /** Multiplying by a non-negative factor keeps an order. */
  lemma MulMonotone(x: int, y: int, c: nat)
    requires x <= y
    ensures x * c <= y * c
  {
    assert y * c - x * c == (y - x) * c;
  }

  /** A positive factor can be cancelled from a strict order. */
  lemma CancelFactor(x: int, y: int, c: int)
    requires c > 0 && x * c < y * c
    ensures x < y
  {
    assert (y - x) * c == y * c - x * c;
  }

  /** Rounding a ratio that is at most b gives at most b. */
  lemma RoundAtMost(a: nat, d: nat, b: nat)
    requires d > 0 && a <= b * d
    ensures Round(a, d) <= b
  {
    var r := Round(a, d);
    assert r * (2 * d) < (b + 1) * (2 * d);
    CancelFactor(r, b + 1, 2 * d);
  }
}
