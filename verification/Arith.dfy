/** The few non-linear facts the other modules need, each proved on its own. */
module Arith {
  lemma MulMonotone(x: int, y: int, d: nat)
    requires x <= y
    ensures x * d <= y * d
  {
    assert y * d - x * d == (y - x) * d;
  }

  lemma ZeroProduct(x: nat, y: nat)
    requires x * y == 0
    ensures x == 0 || y == 0
  {
  }

  lemma Distribute(x: int, y: int, d: int)
    ensures (x + y) * d == x * d + y * d
  {
  }

  lemma Associate(x: int, y: int, d: int)
    ensures x * (d * y) == x * y * d
  {
  }

  function Pow(base: nat, e: nat): (r: nat)
    ensures base >= 1 ==> r >= 1
  {
    if e == 0 then 1 else base * Pow(base, e - 1)
  }

  lemma DivMod(v: nat, d: nat)
    requires d >= 1
    ensures v == v / d * d + v % d && 0 <= v % d < d && v / d >= 0
  {
  }

  /** Quotient and remainder are determined by the usual equation. */
  lemma DivModUnique(v: nat, d: nat, q: int, r: nat)
    requires r < d && v == q * d + r
    ensures v / d == q && v % d == r
  {
    DivMod(v, d);
    var q' := v / d;
    if q' < q {
      MulMonotone(q' + 1, q, d);
      Distribute(q', 1, d);
      assert false;
    } else if q < q' {
      MulMonotone(q + 1, q', d);
      Distribute(q, 1, d);
      assert false;
    }
  }
}
