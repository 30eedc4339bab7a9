/** Integer division facts shared by every fixed-point computation of the exchange.

The on-chain program divides unsigned integers with a floor, has a checked ceiling
division, and truncates signed divisions toward zero. All three are written out here. */
module Arith {

  function Min(a: int, b: int): (r: int) { if a <= b then a else b }

  function Max(a: int, b: int): (r: int) { if a >= b then a else b }

  function Abs(a: int): (r: int)
    ensures r >= 0
  {
    if a < 0 then -a else a
  }

  /** Subtraction that stops at zero (`saturating_sub` on unsigned integers). */
  function SatSub(a: nat, b: nat): (r: nat) { if a <= b then 0 else a - b }

  /** Quotient plus one when there is a remainder, as `checked_ceil_div` computes it. */
  function CeilDiv(x: nat, d: nat): (r: nat)
    requires d > 0
  {
    if x % d > 0 then x / d + 1 else x / d
  }

  /** Signed division by a positive divisor, truncating toward zero. */
  function TruncDiv(x: int, d: nat): (r: int)
    requires d > 0
  {
    if x >= 0 then x / d else -((-x) / d)
  }

  lemma {:induction false} MulMono(a: int, b: int, c: int)
    requires a <= b && 0 <= c
    ensures a * c <= b * c && c * a <= c * b
  {
  }

  lemma {:induction false} MulStrict(a: int, b: int, c: int)
    requires a < b && 0 < c
    ensures a * c < b * c && c * a < c * b
  {
  }

  /** Cancel a positive factor. */
  lemma {:induction false} MulCancel(a: int, b: int, c: int)
    requires 0 < c
    ensures a * c <= b * c ==> a <= b
    ensures a * c < b * c ==> a < b
  {
    if a > b { MulStrict(b, a, c); }
    if a >= b { MulMono(b, a, c); }
  }

  lemma {:induction false} DivBounds(x: int, d: int)
    requires d > 0
    ensures d * (x / d) <= x < d * (x / d) + d
  {
  }

  lemma {:induction false} ModIs(x: int, d: int)
    requires d > 0
    ensures x % d == x - d * (x / d)
  {
  }

  /** `q` is at most the floor exactly when `d * q` fits below `x`. */
  lemma {:induction false} DivGe(x: int, d: int, q: int)
    requires d > 0
    ensures d * q <= x <==> q <= x / d
  {
    DivBounds(x, d);
    if q <= x / d {
      MulMono(q, x / d, d);
    } else {
      MulMono(x / d + 1, q, d);
      assert d * (x / d + 1) == d * (x / d) + d;
    }
  }

  lemma {:induction false} DivUnique(x: int, d: int, q: int)
    requires d > 0
    requires d * q <= x < d * q + d
    ensures x / d == q
  {
    DivGe(x, d, q);
    DivGe(x, d, q + 1);
    assert d * (q + 1) == d * q + d;
  }

  lemma {:induction false} DivMono(x: int, y: int, d: int)
    requires d > 0 && x <= y
    ensures x / d <= y / d
  {
    DivBounds(x, d);
    DivGe(y, d, x / d);
  }

  /** Dividing by a larger positive divisor gives no more. */
  lemma {:induction false} DivMonoDivisor(x: nat, d: nat, e: nat)
    requires 0 < d <= e
    ensures x / e <= x / d
  {
    DivBounds(x, e);
    DivGe(x, e, 0);
    MulMono(d, e, x / e);
    DivGe(x, d, x / e);
  }

  /** A floor of a floor is one floor by the product. */
  lemma {:induction false} DivDiv(x: nat, a: nat, b: nat)
    requires a > 0 && b > 0
    ensures a * b > 0
    ensures (x / a) / b == x / (a * b)
  {
    MulStrict(0, a, b);
    var y := x / a;
    var q := y / b;
    DivBounds(x, a);
    DivBounds(y, b);
    MulMono(b * q, y, a);
    MulMono(y, b * q + b - 1, a);
    assert a * (b * q) == (a * b) * q;
    assert a * (b * q + b - 1) == (a * b) * q + a * b - a;
    DivUnique(x, a * b, q);
  }

  /** Two floor divisions commute. */
  lemma {:induction false} DivSwap(x: nat, a: nat, b: nat)
    requires a > 0 && b > 0
    ensures (x / a) / b == (x / b) / a
  {
    DivDiv(x, a, b);
    DivDiv(x, b, a);
    assert a * b == b * a;
  }

  lemma {:induction false} DivExact(q: int, d: int)
    requires d > 0
    ensures (d * q) / d == q && (q * d) / d == q
  {
    DivUnique(d * q, d, q);
    assert d * q == q * d;
  }

  lemma {:induction false} CeilBounds(x: nat, d: nat)
    requires d > 0
    ensures d * CeilDiv(x, d) >= x
    ensures d * CeilDiv(x, d) < x + d
  {
    DivBounds(x, d);
    assert x == d * (x / d) + x % d;
    assert d * (x / d + 1) == d * (x / d) + d;
  }

  /** The ceiling is the least integer whose multiple reaches `x`. */
  lemma {:induction false} CeilLeast(x: nat, d: nat, q: nat)
    requires d > 0
    ensures x <= d * q <==> CeilDiv(x, d) <= q
  {
    CeilBounds(x, d);
    var c := CeilDiv(x, d);
    if c <= q {
      MulMono(c, q, d);
    } else {
      MulMono(q, c - 1, d);
      assert d * (c - 1) == d * c - d;
    }
  }

  /** The floors of two parts sum to the floor of the whole, or one less. */
  lemma {:induction false} DivSum(x: int, y: int, d: int)
    requires d > 0
    ensures x / d + y / d <= (x + y) / d <= x / d + y / d + 1
  {
    DivBounds(x, d);
    DivBounds(y, d);
    assert d * (x / d + y / d) == d * (x / d) + d * (y / d);
    DivGe(x + y, d, x / d + y / d);
    assert d * (x / d + y / d + 2) == d * (x / d) + d * (y / d) + 2 * d;
    DivGe(x + y, d, x / d + y / d + 2);
  }

  lemma {:induction false} TruncNeg(x: int, d: nat)
    requires d > 0
    ensures TruncDiv(-x, d) == -TruncDiv(x, d)
  {
  }

  lemma {:induction false} TruncBounds(x: int, d: nat)
    requires d > 0
    ensures x >= 0 ==> d * TruncDiv(x, d) <= x < d * TruncDiv(x, d) + d
    ensures x <= 0 ==> d * TruncDiv(x, d) - d < x <= d * TruncDiv(x, d)
  {
    if x >= 0 {
      DivBounds(x, d);
    } else {
      DivBounds(-x, d);
      assert d * (-((-x) / d)) == -(d * ((-x) / d));
    }
  }

  /** Cross-multiplied fractions: `a/b <= c/d` survives multiplying the numerators by `u`. */
  lemma {:induction false} FloorFractionMono(a: nat, b: nat, c: nat, d: nat, u: nat)
    requires b > 0 && d > 0
    requires a * d <= c * b
    ensures (a * u) / b <= (c * u) / d
  {
    var q := (a * u) / b;
    DivBounds(a * u, b);
    // d*q <= c*u, from b*(d*q) <= d*(a*u) <= b*(c*u)
    MulMono(b * q, a * u, d);
    MulMono(a * d, c * b, u);
    assert (d * q) * b == d * (b * q);
    assert d * (a * u) == (a * d) * u;
    assert (c * u) * b == (c * b) * u;
    MulCancel(d * q, c * u, b);
    DivGe(c * u, d, q);
  }

  // -------------------------------------------------- products, one identity at a time

  lemma {:induction false} Distrib(a: int, b: int, c: int)
    ensures a * (b + c) == a * b + a * c
    ensures (b + c) * a == b * a + c * a
    ensures a * (b - c) == a * b - a * c
    ensures (b - c) * a == b * a - c * a
  {
  }

  lemma {:induction false} Assoc(a: int, b: int, c: int)
    ensures (a * b) * c == a * (b * c) == (a * c) * b == (b * c) * a == b * (a * c)
  {
  }
}
