/** The funding rate the market publishes: capped so that the AMM spends at most a third of
its retained equity in one period, and what the AMM's own settlement then really costs. */
module FundingCap {
  import opened Arith
  import opened Funding

  /** What the rate computation reads. Longs are positive, shorts negative. */
  datatype Inputs = Inputs(net: int, long: int, short: int, equity: int)

  /** The AMM is counterparty to the net of all users. */
  predicate Consistent(i: Inputs)
  {
    i.long >= 0 && i.short <= 0 && i.net == i.long + i.short
  }

  /** Signed division truncating toward zero, for a divisor of either sign. */
  function TruncQuot(x: int, d: int): (r: int)
    requires d != 0
  {
    if d > 0 then TruncDiv(x, d) else TruncDiv(-x, -d)
  }

  /** `available_fees` */
  function AvailableFees(i: Inputs): (r: int)
    ensures r >= 0
  {
    Max(i.equity, 0) / 3
  }

  /** `calculate_funding_rate_from_pnl_limit` */
  function RateFromLimit(limit: int, base: int): (r: int)
  {
    if base == 0 then 0
    else
      var biased := if limit < 0 then limit + 1 else limit;
      TruncQuot(biased * QUOTE_TO_BASE, base)
  }

  /** `calculate_capped_funding_rate` */
  function CappedRate(i: Inputs, uncapped: int, rate: int): (r: (int, int))
  {
    var limit := -AvailableFees(i);
    var cappedRate :=
      if uncapped < limit then
        var fromUsers := QuotePayment(rate, if rate > 0 then i.long else i.short);
        RateFromLimit(limit - Abs(fromUsers), if rate < 0 then i.long else i.short)
      else rate;
    (cappedRate, Max(uncapped, limit))
  }

  /** `calculate_funding_rate_long_short`: the two published rates and the projected AMM pnl. */
  function LongShortRates(i: Inputs, rate: int): (r: (int, int, int))
  {
    var uncapped := -QuotePayment(rate, i.net);
    if uncapped >= 0 then (rate, rate, uncapped)
    else
      var (capped, pnl) := CappedRate(i, uncapped, rate);
      (if rate < 0 then capped else rate, if rate > 0 then capped else rate, pnl)
  }

  /** `validate_funding_pnl_profitability` */
  predicate Profitable(i: Inputs, pnl: int)
  {
    pnl >= 0 || i.equity + pnl >= 0
  }

  /** What the AMM settles from the published rates. */
  function Settled(i: Inputs, rate: int): (r: int)
  {
    var (long, short, _) := LongShortRates(i, rate);
    AmmPayment(i.long, i.short, long, short)
  }

  // ------------------------------------------------------------ the cap, in magnitudes

  /** Rate cut for a receiving side of `receiving` base, given the AMM budget and what the
  paying side already covers. */
  function CutRate(budget: int, covered: int, receiving: int): (r: int)
    requires receiving > 0 && budget >= 0 && covered >= 0
    ensures r >= 0
  {
    DivGe(SatSub(budget + covered, 1) * QUOTE_TO_BASE, receiving, 0);
    (SatSub(budget + covered, 1) * QUOTE_TO_BASE) / receiving
  }

  lemma {:induction false} CutRateBounded(rate: nat, paying: nat, receiving: nat, budget: nat)
    requires paying <= receiving && (rate * (receiving - paying)) / QUOTE_TO_BASE > budget
    ensures receiving > 0 && CutRate(budget, (rate * paying) / QUOTE_TO_BASE, receiving) <= rate
    ensures var covered := (rate * paying) / QUOTE_TO_BASE;
            CutRate(budget, covered, receiving) * receiving <= SatSub(budget + covered, 1) * QUOTE_TO_BASE
  {
    var covered := (rate * paying) / QUOTE_TO_BASE;
    var owed := (rate * (receiving - paying)) / QUOTE_TO_BASE;
    OwedSign(rate, receiving - paying);
    DivBounds(rate * paying, QUOTE_TO_BASE);
    DivBounds(rate * (receiving - paying), QUOTE_TO_BASE);
    Distrib(rate, receiving, paying);
    var spend := SatSub(budget + covered, 1) * QUOTE_TO_BASE;
    assert spend <= rate * receiving;
    DivBounds(spend, receiving);
    var cut := spend / receiving;
    assert cut * receiving <= rate * receiving;
    MulCancel(cut, rate, receiving);
  }

  /** After a cut the AMM's real settlement stays strictly inside the budget. */
  lemma {:induction false} CutSettlement(rate: nat, paying: nat, cut: nat, receiving: nat, budget: nat)
    requires cut * receiving <= SatSub(budget + (rate * paying) / QUOTE_TO_BASE, 1) * QUOTE_TO_BASE
    ensures TruncDiv((rate * paying) / RATE_UNIT - (cut * receiving) / RATE_UNIT, QUOTE_RATIO) >= 0 - SatSub(budget, 1)
  {
    var x, y := rate * paying, cut * receiving;
    Nested(x);
    var covered := x / QUOTE_TO_BASE;
    DivMono(y, SatSub(budget + covered, 1) * QUOTE_TO_BASE, RATE_UNIT);
    assert SatSub(budget + covered, 1) * QUOTE_TO_BASE == (SatSub(budget + covered, 1) * QUOTE_RATIO) * RATE_UNIT;
    DivExact(SatSub(budget + covered, 1) * QUOTE_RATIO, RATE_UNIT);
  }

  lemma {:induction false} Nested(x: nat)
    ensures x / RATE_UNIT >= 0
    ensures (x / RATE_UNIT) / QUOTE_RATIO == x / QUOTE_TO_BASE
  {
  }

  /** Without a cut the settlement exceeds the projected payment by at most one unit. */
  lemma {:induction false} UncutSettlement(rate: nat, paying: nat, receiving: nat)
    ensures var owed := TruncDiv(rate * (receiving - paying), QUOTE_TO_BASE);
            var raw := (rate * paying) / RATE_UNIT - (rate * receiving) / RATE_UNIT;
            TruncDiv(raw, QUOTE_RATIO) >= -Max(owed, 0) - 1
  {
    Distrib(rate, receiving, paying);
    if paying <= receiving {
      UncutRaw(rate * paying, rate * (receiving - paying));
    } else {
      MulMono(receiving, paying, rate);
      DivMono(rate * receiving, rate * paying, RATE_UNIT);
    }
  }

  lemma {:induction false} UncutRaw(x: int, d: nat)
    ensures TruncDiv(x / RATE_UNIT - (x + d) / RATE_UNIT, QUOTE_RATIO) >= -(d / QUOTE_TO_BASE) - 1
  {
    Nested(d);
    DivSum(x, d, RATE_UNIT);
  }

  // ------------------------------------------------------------------ reading the code

  /** The side that pays and the side that receives, by the sign of the rate. */
  function Paying(i: Inputs, rate: int): (r: int)
    requires Consistent(i)
    ensures r >= 0
  {
    if rate > 0 then i.long else -i.short
  }

  function Receiving(i: Inputs, rate: int): (r: int)
    requires Consistent(i)
    ensures r >= 0
  {
    if rate > 0 then -i.short else i.long
  }

  /** What users are owed net of what they owe, rounded. */
  function Owed(i: Inputs, rate: int): (r: int)
    requires Consistent(i)
  {
    TruncDiv(Abs(rate) * (Receiving(i, rate) - Paying(i, rate)), QUOTE_TO_BASE)
  }

  lemma {:induction false} UncappedIs(i: Inputs, rate: int)
    requires Consistent(i)
    ensures -QuotePayment(rate, i.net) == -Owed(i, rate)
  {
    hide QuotePayment;
    UserIs(rate, i.net);
    var p, q := Paying(i, rate), Receiving(i, rate);
    NegMul(Abs(rate), q - p);
    assert rate * i.net == -(Abs(rate) * (q - p)) by {
      if rate > 0 {
        assert i.net == -(q - p);
      } else {
        assert i.net == q - p;
      }
    }
    TruncNeg(Abs(rate) * (q - p), QUOTE_TO_BASE);
  }

  lemma {:induction false} FromUsersIs(i: Inputs, rate: int)
    requires Consistent(i)
    ensures Abs(QuotePayment(rate, if rate > 0 then i.long else i.short))
         == (Abs(rate) * Paying(i, rate)) / QUOTE_TO_BASE
  {
    var base := if rate > 0 then i.long else i.short;
    UserIs(rate, base);
    var p := Paying(i, rate);
    assert rate * base == Abs(rate) * p by {
      if rate <= 0 { assert rate == -Abs(rate) && base == -p; }
    }
    MulMono(0, p, Abs(rate));
  }

  lemma {:induction false} LimitRateIs(limit: int, base: int)
    requires limit <= 0
    ensures base > 0 ==> RateFromLimit(limit, base) == -(SatSub(-limit, 1) * QUOTE_TO_BASE / base)
    ensures base < 0 ==> RateFromLimit(limit, base) == SatSub(-limit, 1) * QUOTE_TO_BASE / -base
    ensures base == 0 ==> RateFromLimit(limit, base) == 0
  {
    if base > 0 { DivGe(0, base, 0); DivUnique(0, base, 0); }
    if base < 0 { DivUnique(0, -base, 0); }
  }

  /** The published rates: the receiving side is cut to `CutRate` when the owed amount exceeds
  the budget, and left alone otherwise. */
  lemma {:induction false} RatesAre(i: Inputs, rate: int)
    requires Consistent(i)
    ensures var p, q := Paying(i, rate), Receiving(i, rate); var budget := AvailableFees(i);
            var covered := (Abs(rate) * p) / QUOTE_TO_BASE;
            var (long, short, pnl) := LongShortRates(i, rate);
            if Owed(i, rate) > budget then
              q > p && pnl == -budget
              && (rate > 0 ==> long == rate && short == CutRate(budget, covered, q))
              && (rate < 0 ==> short == rate && long == -CutRate(budget, covered, q))
            else long == rate && short == rate && pnl == -Owed(i, rate)
  {
    hide QuotePayment, RateFromLimit;
    UncappedIs(i, rate);
    FromUsersIs(i, rate);
    var p, q := Paying(i, rate), Receiving(i, rate);
    var budget := AvailableFees(i);
    if Owed(i, rate) > budget {
      assert q > p by { OwedSign(Abs(rate), q - p); }
      OwedSign(Abs(rate), q - p);
      var covered := (Abs(rate) * p) / QUOTE_TO_BASE;
      DivGe(Abs(rate) * p, QUOTE_TO_BASE, 0);
      LimitRateIs(-budget - covered, if rate < 0 then i.long else i.short);
    }
  }

  lemma {:induction false} OwedSign(r: nat, d: int)
    ensures TruncDiv(r * d, QUOTE_TO_BASE) > 0 ==> d > 0 && r > 0
  {
    if r == 0 { assert r * d == 0; }
    if d <= 0 { MulMono(d, 0, r); }
  }

  /** The two legs of the AMM's settlement, in magnitudes. */
  lemma {:induction false} LegsAre(i: Inputs, rate: int, long: int, short: int, cut: int)
    requires Consistent(i) && cut >= 0
    requires (rate > 0 && long == rate && short == cut) || (rate < 0 && short == rate && long == -cut)
    ensures AmmPayment(i.long, i.short, long, short)
         == TruncDiv((Abs(rate) * Paying(i, rate)) / RATE_UNIT - (cut * Receiving(i, rate)) / RATE_UNIT, QUOTE_RATIO)
  {
    hide AmmPayment;
    AmmIs(i.long, i.short, long, short);
    var p, q := Paying(i, rate), Receiving(i, rate);
    NonNeg(Abs(rate), p);
    NonNeg(cut, q);
    if rate > 0 {
      NegMul(cut, q);
      SignedLegs(rate * p, cut * q);
    } else {
      NegMul(cut, q);
      NegMul(-rate, p);
      SignedLegs(Abs(rate) * p, cut * q);
    }
  }

  lemma {:induction false} NonNeg(a: int, b: int)
    requires a >= 0 && b >= 0
    ensures a * b >= 0
  {
  }

  lemma {:induction false} NegMul(a: int, b: int)
    ensures a * -b == -(a * b) == -a * b && -a * -b == a * b
  {
  }

  lemma {:induction false} SignedLegs(x: int, y: int)
    requires x >= 0 && y >= 0
    ensures TruncDiv(x, RATE_UNIT) + TruncDiv(-y, RATE_UNIT) == x / RATE_UNIT - y / RATE_UNIT
  {
    TruncNeg(y, RATE_UNIT);
  }

  // ------------------------------------------------------------------- main results

  /** Capping: neither published rate exceeds the raw rate or flips its sign; a period in which
  the AMM earns is never capped; the projected pnl is inside the budget and passes the
  profitability gate. */
  lemma {:induction false} CapIsSound(i: Inputs, rate: int)
    requires Consistent(i)
    ensures var (long, short, pnl) := LongShortRates(i, rate);
            && Abs(long) <= Abs(rate) && Abs(short) <= Abs(rate)
            && (rate >= 0 ==> long >= 0 && short >= 0) && (rate <= 0 ==> long <= 0 && short <= 0)
            && (Owed(i, rate) <= 0 ==> long == rate && short == rate && pnl >= 0)
            && pnl >= -AvailableFees(i)
            && Profitable(i, pnl)
  {
    hide LongShortRates;
    RatesAre(i, rate);
    if Owed(i, rate) > AvailableFees(i) {
      CutRateBounded(Abs(rate), Paying(i, rate), Receiving(i, rate), AvailableFees(i));
    }
    if rate == 0 { OwedSign(0, Receiving(i, rate) - Paying(i, rate)); }
  }

  /** `rate` is the greatest at which `base` receives no more than `tokens`. */
  predicate Greatest(rate: int, base: int, tokens: int)
  {
    rate >= 0 && base * rate <= tokens * QUOTE_TO_BASE < base * (rate + 1)
  }

  /** Exactly how far the rate is cut: only when users are owed more than a third of the AMM's equity,
  only on the side that receives, and to the greatest rate at which that side gets no more than the
  third and what the other side pays, less the one unit the limit is rounded by. */
  lemma {:induction false} CapIsGreatest(i: Inputs, rate: int, budget: nat, covered: nat)
    requires Consistent(i) && 3 * budget <= Max(i.equity, 0) < 3 * budget + 3
    requires QUOTE_TO_BASE * covered <= Abs(rate) * Paying(i, rate) < QUOTE_TO_BASE * covered + QUOTE_TO_BASE
    ensures var (long, short, pnl) := LongShortRates(i, rate);
            if Owed(i, rate) > budget then
              && pnl == 0 - budget
              && (rate > 0 ==> long == rate && Greatest(short, Receiving(i, rate), SatSub(budget + covered, 1)))
              && (rate < 0 ==> short == rate && Greatest(-long, Receiving(i, rate), SatSub(budget + covered, 1)))
              && rate != 0
            else long == rate && short == rate && pnl == -Owed(i, rate)
  {
    hide LongShortRates, CutRate, Owed, Paying, Greatest;
    DivUnique(Max(i.equity, 0), 3, budget);
    DivUnique(Abs(rate) * Paying(i, rate), QUOTE_TO_BASE, covered);
    RatesAre(i, rate);
    if Owed(i, rate) > budget {
      if rate == 0 { NothingOwed(i); }
      CutRateIs(budget, covered, Receiving(i, rate));
    }
  }

  lemma {:induction false} NothingOwed(i: Inputs)
    requires Consistent(i)
    ensures Owed(i, 0) == 0
  {
    assert 0 * (Receiving(i, 0) - Paying(i, 0)) == 0;
  }

  lemma {:induction false} CutRateIs(budget: nat, covered: nat, receiving: nat)
    requires receiving > 0
    ensures Greatest(CutRate(budget, covered, receiving), receiving, SatSub(budget + covered, 1))
  {
    DivBounds(SatSub(budget + covered, 1) * QUOTE_TO_BASE, receiving);
    Distrib(receiving, CutRate(budget, covered, receiving), 1);
  }

  /** One period really costs the AMM at most one unit more than the budget, and at most the
  budget whenever the cap engages. */
  lemma {:induction false} SettledWithinBudget(i: Inputs, rate: int)
    requires Consistent(i)
    ensures Settled(i, rate) >= -AvailableFees(i) - 1
    ensures Owed(i, rate) > AvailableFees(i) ==> Settled(i, rate) >= 0 - SatSub(AvailableFees(i), 1)
    ensures Settled(i, rate) >= -Max(Owed(i, rate), 0) - 1
  {
    hide LongShortRates, Settled, Owed, AvailableFees;
    if Owed(i, rate) > AvailableFees(i) {
      SettledCut(i, rate);
    } else {
      SettledUncutBound(i, rate);
    }
  }

  lemma {:induction false} SettledCut(i: Inputs, rate: int)
    requires Consistent(i) && Owed(i, rate) > AvailableFees(i)
    ensures Settled(i, rate) >= 0 - SatSub(AvailableFees(i), 1)
  {
    hide LongShortRates, AmmPayment, CutRate, AvailableFees, Paying, Receiving;
    var p, q, budget := Paying(i, rate), Receiving(i, rate), AvailableFees(i);
    OwedSign(Abs(rate), q - p);
    RatesAre(i, rate);
    var cut := CutBudget(Abs(rate), p, q, budget);
    LegsAre(i, rate, if rate > 0 then rate else -cut, if rate > 0 then cut else rate, cut);
  }

  lemma {:induction false} CutBudget(rate: nat, paying: nat, receiving: nat, budget: nat) returns (cut: int)
    requires paying < receiving && (rate * (receiving - paying)) / QUOTE_TO_BASE > budget
    ensures (rate * paying) / QUOTE_TO_BASE >= 0
    ensures cut == CutRate(budget, (rate * paying) / QUOTE_TO_BASE, receiving)
    ensures TruncDiv((rate * paying) / RATE_UNIT - (cut * receiving) / RATE_UNIT, QUOTE_RATIO) >= 0 - SatSub(budget, 1)
  {
    hide CutRate;
    DivGe(rate * paying, QUOTE_TO_BASE, 0);
    cut := CutRate(budget, (rate * paying) / QUOTE_TO_BASE, receiving);
    CutRateBounded(rate, paying, receiving, budget);
    CutSettlement(rate, paying, cut, receiving, budget);
  }

  lemma {:induction false} SettledUncutBound(i: Inputs, rate: int)
    requires Consistent(i) && Owed(i, rate) <= AvailableFees(i)
    ensures Settled(i, rate) >= -Max(Owed(i, rate), 0) - 1
  {
    hide LongShortRates, AmmPayment, AvailableFees, Paying, Receiving;
    if rate == 0 {
      SettledZero(i);
    } else {
      RatesAre(i, rate);
      LegsAre(i, rate, rate, rate, Abs(rate));
      UncutSettlement(Abs(rate), Paying(i, rate), Receiving(i, rate));
    }
  }

  lemma {:induction false} SettledZero(i: Inputs)
    ensures Settled(i, 0) == 0
  {
    hide LongShortRates, AmmPayment;
    ZeroRate(i);
    AmmIs(i.long, i.short, 0, 0);
  }

  lemma {:induction false} ZeroRate(i: Inputs)
    ensures LongShortRates(i, 0) == (0, 0, 0)
  {
    UserIs(0, i.net);
  }

  /** The gap between gate and settlement: a period starting with non-negative equity leaves it
  negative exactly when the equity was zero, the netted amount owed rounds to zero, and the
  two legs, rounded apart, differ by a whole quote unit against the AMM. The loss is then
  one unit. */
  lemma {:induction false} EquityGoesNegativeExactlyWhen(i: Inputs, rate: int)
    requires Consistent(i) && i.equity >= 0
    ensures i.equity + Settled(i, rate) >= -1
    ensures i.equity + Settled(i, rate) < 0 <==>
              && i.equity == 0
              && Owed(i, rate) <= 0
              && TruncDiv(rate * i.long, RATE_UNIT) + TruncDiv(rate * i.short, RATE_UNIT) <= -QUOTE_RATIO
  {
    hide LongShortRates, Settled, Owed;
    SettledWithinBudget(i, rate);
    if Owed(i, rate) <= AvailableFees(i) {
      RatesAre(i, rate);
      SettledUncut(i, rate);
    }
  }

  lemma {:induction false} SettledUncut(i: Inputs, rate: int)
    requires var (long, short, _) := LongShortRates(i, rate); long == rate && short == rate
    ensures Settled(i, rate)
         == TruncDiv(TruncDiv(rate * i.long, RATE_UNIT) + TruncDiv(rate * i.short, RATE_UNIT), QUOTE_RATIO)
  {
    hide LongShortRates, AmmPayment;
    AmmIs(i.long, i.short, rate, rate);
  }

  /** Such an input: the smallest rate, 0.6 base units long against 1000.1 short. */
  lemma {:induction false} EquityCanGoNegative()
    ensures var i := Inputs(-999_500_000_000, 600_000_000, -1_000_100_000_000, 0);
            Consistent(i) && LongShortRates(i, 1) == (1, 1, 0) && Profitable(i, 0) && i.equity + Settled(i, 1) == -1
  {
  }

  /** A period: the open interest it sees and the raw rate. */
  datatype Period = Period(long: nat, short: nat, rate: int) {
    function At(equity: int): (r: Inputs)
      ensures Consistent(r)
    {
      Inputs(long - short, long, 0 - short, equity)
    }
  }

  function Equity(start: int, ps: seq<Period>): (r: int)
    decreases |ps|
  {
    if ps == [] then start
    else
      var p := ps[0];
      Equity(start + Settled(p.At(start), p.rate), ps[1..])
  }

  /** Over any number of periods, with any open interest and any rates, funding alone takes the
  AMM's equity at most one unit per period below zero (or below where it started). */
  lemma {:induction false} EquityNeverRunsAway(start: int, ps: seq<Period>)
    ensures Equity(start, ps) >= Min(start, 0) - |ps|
    decreases |ps|
  {
    hide Settled;
    if ps == [] {
    } else {
      var p := ps[0];
      var i := p.At(start);
      assert Consistent(i);
      SettledWithinBudget(i, p.rate);
      if start >= 0 { EquityGoesNegativeExactlyWhen(i, p.rate); }
      EquityNeverRunsAway(start + Settled(i, p.rate), ps[1..]);
    }
  }
}
