/** Funding payments: what positions and the AMM pay each other, how the rate is capped by
the AMM's retained equity, and how far rounding can drift over a whole run. */
module Funding {
  import opened Arith

  /** PRICE_PRECISION * FUNDING_RATE_BUFFER */
  const RATE_UNIT: int := 1_000_000_000
  /** AMM_TO_QUOTE_PRECISION_RATIO */
  const QUOTE_RATIO: int := 1_000
  /** QUOTE_TO_BASE_AMT_FUNDING_PRECISION */
  const QUOTE_TO_BASE: int := 1_000_000_000_000
  /** AMM_RESERVE_PRECISION */
  const BASE_UNIT: int := 1_000_000_000
  /** FUNDING_RATE_TO_QUOTE_PRECISION_PRECISION_RATIO */
  const RATE_TO_QUOTE: int := 1_000

  // ------------------------------------------------------------------------ payments

  /** `_calculate_funding_payment`: magnitude first, then the two signs. */
  function RawPayment(delta: int, base: int): (r: int)
  {
    var magnitude := ((Abs(delta) * Abs(base)) / 1_000_000) / 1_000;
    var paymentSign := if base > 0 then -1 else 1;
    var deltaSign := if delta > 0 then 1 else -1;
    magnitude * paymentSign * deltaSign
  }

  /** `calculate_funding_payment_in_quote_precision` */
  function QuotePayment(delta: int, base: int): (r: int)
  {
    TruncDiv(RawPayment(delta, base), QUOTE_RATIO)
  }

  /** `calculate_funding_payment`: what a position receives when the rate moved by `delta`. */
  function UserPayment(delta: int, base: int): (r: int)
  {
    if delta == 0 then 0 else QuotePayment(delta, base)
  }

  /** `calculate_amm_funding_payment`: the AMM is counterparty to each side, and the two legs
  are divided once, together. */
  function AmmPayment(long: int, short: int, longDelta: int, shortDelta: int): (r: int)
  {
    var longLeg := if longDelta != 0 && long != 0 then RawPayment(longDelta, -long) else 0;
    var shortLeg := if shortDelta != 0 && short != 0 then RawPayment(shortDelta, -short) else 0;
    TruncDiv(longLeg + shortLeg, QUOTE_RATIO)
  }

  lemma {:induction false} AbsMul(a: int, b: int)
    ensures Abs(a) * Abs(b) == Abs(a * b)
  {
  }

  /** The sign bookkeeping is a truncating division of the signed product. */
  lemma {:induction false} RawIs(delta: int, base: int)
    ensures RawPayment(delta, base) == -TruncDiv(delta * base, RATE_UNIT)
    ensures RawPayment(delta, -base) == TruncDiv(delta * base, RATE_UNIT)
  {
    RawSigned(delta, base);
    RawSigned(delta, -base);
    assert delta * -base == -(delta * base);
    TruncNeg(delta * base, RATE_UNIT);
  }

  lemma {:induction false} RawSigned(delta: int, base: int)
    ensures RawPayment(delta, base) == -TruncDiv(delta * base, RATE_UNIT)
  {
    AbsMul(delta, base);
    DivDiv(Abs(delta * base), 1_000_000, 1_000);
    if delta == 0 || base == 0 {
      assert delta * base == 0;
    } else if (delta > 0) == (base > 0) {
      SameSign(delta, base);
    } else {
      SameSign(delta, -base);
      assert delta * -base == -(delta * base);
    }
  }

  lemma {:induction false} SameSign(a: int, b: int)
    requires a != 0 && b != 0 && ((a > 0) == (b > 0))
    ensures a * b > 0
  {
  }

  lemma {:induction false} TruncTrunc(x: int, a: nat, b: nat)
    requires a > 0 && b > 0
    ensures a * b > 0 && TruncDiv(TruncDiv(x, a), b) == TruncDiv(x, a * b)
  {
    if x >= 0 {
      DivDiv(x, a, b);
      DivGe(x, a, 0);
    } else {
      DivDiv(-x, a, b);
      DivGe(-x, a, 0);
    }
  }

  lemma {:induction false} UserIs(delta: int, base: int)
    ensures QuotePayment(delta, base) == -TruncDiv(delta * base, QUOTE_TO_BASE)
    ensures UserPayment(delta, base) == -TruncDiv(delta * base, QUOTE_TO_BASE)
  {
    hide RawPayment;
    RawIs(delta, base);
    TruncTrunc(delta * base, RATE_UNIT, QUOTE_RATIO);
    TruncNeg(TruncDiv(delta * base, RATE_UNIT), QUOTE_RATIO);
    if delta == 0 { assert delta * base == 0; }
  }

  lemma {:induction false} AmmIs(long: int, short: int, longDelta: int, shortDelta: int)
    ensures AmmPayment(long, short, longDelta, shortDelta)
         == TruncDiv(TruncDiv(longDelta * long, RATE_UNIT) + TruncDiv(shortDelta * short, RATE_UNIT), QUOTE_RATIO)
  {
    RawIs(longDelta, long);
    RawIs(shortDelta, short);
    if longDelta == 0 || long == 0 { assert longDelta * long == 0; }
    if shortDelta == 0 || short == 0 { assert shortDelta * short == 0; }
  }

  // ----------------------------------------------------------------------- zero sum

  lemma {:induction false} TruncSum(a: int, b: int, d: nat)
    requires d > 0
    ensures -1 <= TruncDiv(a + b, d) - TruncDiv(a, d) - TruncDiv(b, d) <= 1
  {
    TruncBounds(a, d);
    TruncBounds(b, d);
    TruncBounds(a + b, d);
    var x, y, z := TruncDiv(a, d), TruncDiv(b, d), TruncDiv(a + b, d);
    Distrib(d, z, x + y);
    Distrib(d, x, y);
    var e := z - x - y;
    assert -2 * d < d * e < 2 * d;
    if e >= 2 { MulMono(2, e, d); }
    if e <= -2 { MulMono(e, -2, d); }
  }

  /** One period: the two user sides and the AMM together create or destroy at most one unit. */
  lemma {:induction false} ZeroSum(long: int, short: int, longDelta: int, shortDelta: int)
    ensures -1 <= UserPayment(longDelta, long) + UserPayment(shortDelta, short)
                + AmmPayment(long, short, longDelta, shortDelta) <= 1
  {
    hide UserPayment, AmmPayment;
    UserIs(longDelta, long);
    UserIs(shortDelta, short);
    AmmIs(long, short, longDelta, shortDelta);
    var a, b := TruncDiv(longDelta * long, RATE_UNIT), TruncDiv(shortDelta * short, RATE_UNIT);
    TruncTrunc(longDelta * long, RATE_UNIT, QUOTE_RATIO);
    TruncTrunc(shortDelta * short, RATE_UNIT, QUOTE_RATIO);
    TruncSum(a, b, QUOTE_RATIO);
  }

  /** The bound is reached. */
  lemma {:induction false} ZeroSumIsTight()
    ensures UserPayment(1, 1_500_000_000_000) + UserPayment(1, -999_000_000_000)
          + AmmPayment(1_500_000_000_000, -999_000_000_000, 1, 1) == -1
  {
  }

  /** One funding period: both sides' base and both rate moves. */
  datatype Period = Period(long: int, short: int, longDelta: int, shortDelta: int)

  /** What all parties together receive over a sequence of periods. */
  function Net(ps: seq<Period>): (r: int)
  {
    if ps == [] then 0
    else
      var p := ps[0];
      UserPayment(p.longDelta, p.long) + UserPayment(p.shortDelta, p.short)
      + AmmPayment(p.long, p.short, p.longDelta, p.shortDelta) + Net(ps[1..])
  }

  /** Over n periods, whatever the open interest and the rates, rounding creates or destroys at
  most n units. */
  lemma {:induction false} PeriodsZeroSum(ps: seq<Period>)
    ensures -|ps| <= Net(ps) <= |ps|
  {
    hide UserPayment, AmmPayment;
    if ps == [] {
    } else {
      ZeroSum(ps[0].long, ps[0].short, ps[0].longDelta, ps[0].shortDelta);
      PeriodsZeroSum(ps[1..]);
    }
  }

  /** Negating both rate moves negates the AMM payment exactly. */
  lemma {:induction false} AmmAntisymmetric(long: int, short: int, longDelta: int, shortDelta: int)
    ensures AmmPayment(long, short, -longDelta, -shortDelta) == -AmmPayment(long, short, longDelta, shortDelta)
  {
    hide AmmPayment;
    AmmIs(long, short, longDelta, shortDelta);
    AmmIs(long, short, -longDelta, -shortDelta);
    var a, b := longDelta * long, shortDelta * short;
    assert -longDelta * long == -a && -shortDelta * short == -b;
    TruncNeg(a, RATE_UNIT);
    TruncNeg(b, RATE_UNIT);
    TruncNeg(TruncDiv(a, RATE_UNIT) + TruncDiv(b, RATE_UNIT), QUOTE_RATIO);
  }

  function Sum(xs: seq<int>): (r: int)
  {
    if xs == [] then 0 else xs[0] + Sum(xs[1..])
  }

  function Payments(delta: int, bases: seq<int>): (r: int)
  {
    if bases == [] then 0 else UserPayment(delta, bases[0]) + Payments(delta, bases[1..])
  }

  /** All long or all short. */
  predicate OneSided(bases: seq<int>)
  {
    (forall i :: 0 <= i < |bases| ==> bases[i] >= 0) || (forall i :: 0 <= i < |bases| ==> bases[i] <= 0)
  }

  /** A side split among N positions of one sign is paid its aggregate, less fewer than N
  units of rounding, always in the aggregate's direction. */
  lemma {:induction false} SplitPayment(delta: int, bases: seq<int>)
    requires OneSided(bases)
    ensures var whole, parts := UserPayment(delta, Sum(bases)), Payments(delta, bases);
            && Abs(parts) <= Abs(whole)
            && (whole >= 0 ==> 0 <= parts) && (whole <= 0 ==> parts <= 0)
            && (bases != [] ==> Abs(whole - parts) < |bases|)
            && (bases == [] ==> whole == parts)
  {
    hide UserPayment;
    if bases == [] {
      UserIs(delta, 0);
    } else {
      var b, rest := bases[0], bases[1..];
      SplitPayment(delta, rest);
      SumSign(rest);
      SplitOne(delta, b, Sum(rest));
    }
  }

  lemma {:induction false} SumSign(bases: seq<int>)
    ensures (forall i :: 0 <= i < |bases| ==> bases[i] >= 0) ==> Sum(bases) >= 0
    ensures (forall i :: 0 <= i < |bases| ==> bases[i] <= 0) ==> Sum(bases) <= 0
  {
    if bases == [] {
    } else {
      SumSign(bases[1..]);
    }
  }

  lemma {:induction false} SplitOne(delta: int, b: int, c: int)
    requires (b >= 0 && c >= 0) || (b <= 0 && c <= 0)
    ensures var w, x, y := UserPayment(delta, b + c), UserPayment(delta, b), UserPayment(delta, c);
            && ((w >= 0 && x >= 0 && y >= 0) || (w <= 0 && x <= 0 && y <= 0))
            && Abs(x + y) <= Abs(w) <= Abs(x + y) + 1
            && (b == 0 ==> x == 0) && (c == 0 ==> y == 0 && w == x)
  {
    hide UserPayment;
    UserIs(delta, b + c);
    UserIs(delta, b);
    UserIs(delta, c);
    Distrib(delta, b, c);
    ProductSign(delta, b);
    ProductSign(delta, c);
    var p, q := delta * b, delta * c;
    assert delta * (b + c) == p + q;
    if p >= 0 && q >= 0 {
      DivSum(p, q, QUOTE_TO_BASE);
    } else {
      DivSum(-p, -q, QUOTE_TO_BASE);
      assert -(p + q) == -p + -q;
    }
  }

  lemma {:induction false} ProductSign(a: int, b: int)
    ensures (a >= 0 && b >= 0) || (a <= 0 && b <= 0) ==> a * b >= 0
    ensures (a >= 0 && b <= 0) || (a <= 0 && b >= 0) ==> a * b <= 0
    ensures b == 0 ==> a * b == 0
  {
  }
}
