/** Rounding up to a multiple: the arithmetic behind reservation sizes and block placement. */
module Rounding {

  /** The least multiple of `d` at or above `x`. */
  function RoundUp(x: nat, d: nat): nat
    requires d > 0
  {
    (x + d - 1) / d * d
  }

  lemma MulMod(q: nat, d: nat)
    requires d > 0
    ensures (q * d) % d == 0
  {
    var k, r := (q * d) / d, (q * d) % d;
    assert d * (q - k) == r;
    SmallMultiple(d, q - k);
  }

  lemma SmallMultiple(d: int, z: int)
    requires d > 0 && 0 <= d * z < d
    ensures z == 0
  {
  }

  /** Sums and differences of multiples of `d` are multiples of `d`. */
  lemma AddMod(x: nat, y: nat, d: nat)
    requires d > 0 && x % d == 0 && y % d == 0
    ensures (x + y) % d == 0
    ensures x >= y ==> (x - y) % d == 0
  {
    var p, q := x / d, y / d;
    assert x == p * d && y == q * d;
    assert x + y == (p + q) * d;
    MulMod(p + q, d);
    if x >= y {
      assert p >= q;
      assert x - y == (p - q) * d;
      MulMod(p - q, d);
    }
  }

  lemma RoundUpBounds(x: nat, d: nat)
    requires d > 0
    ensures x <= RoundUp(x, d) < x + d
    ensures RoundUp(x, d) % d == 0
  {
    var q := (x + d - 1) / d;
    assert x + d - 1 == d * q + (x + d - 1) % d;
    MulMod(q, d);
  }

  /** Two multiples of `d` less than `d` apart are equal. */
  lemma CloseMultiples(x: nat, y: nat, d: nat)
    requires d > 0 && x % d == 0 && y % d == 0 && x <= y < x + d
    ensures x == y
  {
    AddMod(y, x, d);
    assert (y - x) % d == 0;
  }

  lemma RoundUpFixed(x: nat, d: nat)
    requires d > 0 && x % d == 0
    ensures RoundUp(x, d) == x
  {
    RoundUpBounds(x, d);
    CloseMultiples(x, RoundUp(x, d), d);
  }

  /** RoundUp is the least multiple at or above `x`. */
  lemma RoundUpLeast(x: nat, y: nat, d: nat)
    requires d > 0 && y % d == 0 && x <= y
    ensures RoundUp(x, d) <= y
  {
    RoundUpBounds(x, d);
    if y < RoundUp(x, d) {
      CloseMultiples(y, RoundUp(x, d), d);
    }
  }

  /** A multiple of a multiple. */
  lemma ModTrans(x: nat, d: nat, e: nat)
    requires d > 0 && e > 0 && x % d == 0 && d % e == 0
    ensures x % e == 0
  {
    var p, q := x / d, d / e;
    assert x == d * p && d == e * q;
    assert x == e * (q * p) by { assert (e * q) * p == e * (q * p); }
    MulMod(q * p, e);
  }
}
