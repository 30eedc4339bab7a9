/** The AMM's constant-product curve: swaps with floored reserves, what traders are charged,
and sizing a trade to a limit price. */
module Curve {
  import opened Arith
  import opened Wrappers

  const PRICE_PRECISION: int := 1_000_000
  const PEG_PRECISION: int := 1_000_000
  /** AMM_TIMES_PEG_TO_QUOTE_PRECISION_RATIO */
  const RESERVE_TO_QUOTE: int := 1_000_000_000
  const U64_MAX: int := 0xFFFF_FFFF_FFFF_FFFF

  datatype SwapDirection = AddBase | RemoveBase

  datatype Error = TradeSizeTooLarge | MathError | InvalidLimitPrice

  /** `calculate_swap_output`: new output reserve, then new input reserve. */
  function SwapOutput(amount: nat, input: nat, dir: SwapDirection, sqrtK: nat): (r: Result<(int, nat), Error>)
  {
    if dir.RemoveBase? && amount > input then Err(TradeSizeTooLarge)
    else
      var newInput := if dir.AddBase? then input + amount else input - amount;
      if newInput == 0 then Err(MathError)
      else Ok(((sqrtK * sqrtK) / newInput, newInput))
  }

  /** `calculate_quote_asset_amount_swapped`: buying base costs one reserve unit and one quote
  unit more than the curve says. */
  function QuoteSwapped(before: int, after: int, dir: SwapDirection, peg: nat): (r: Result<int, Error>)
  {
    var change := if dir.AddBase? then before - after else after - before;
    if change < 0 then Err(MathError)
    else if dir.AddBase? then Ok((change * peg) / RESERVE_TO_QUOTE)
    else Ok(((change + 1) * peg) / RESERVE_TO_QUOTE + 1)
  }

  /** A pool and what its traders have paid in so far, net. */
  datatype Pool = Pool(base: nat, quote: int, sqrtK: nat, peg: nat, paid: int, buys: nat)

  datatype Trade = Trade(dir: SwapDirection, amount: nat)

  function Execute(p: Pool, t: Trade): (r: Result<Pool, Error>)
  {
    match SwapOutput(t.amount, p.base, t.dir, p.sqrtK)
    case Err(e) => Err(e)
    case Ok((quote, base)) =>
      match QuoteSwapped(p.quote, quote, t.dir, p.peg)
      case Err(e) => Err(e)
      case Ok(q) =>
        Ok(p.(base := base, quote := quote,
              paid := if t.dir.AddBase? then p.paid - q else p.paid + q,
              buys := if t.dir.AddBase? then p.buys else p.buys + 1))
  }

  /** Trades that fail leave the pool alone. */
  function Run(p: Pool, ts: seq<Trade>): (r: Pool)
    decreases |ts|
  {
    if ts == [] then p
    else Run(match Execute(p, ts[0]) case Ok(q) => q case Err(_) => p, ts[1..])
  }

  /** The quote reserve is the floored hyperbola at the base reserve. */
  predicate OnCurve(p: Pool)
  {
    p.base > 0 && p.quote == (p.sqrtK * p.sqrtK) / p.base
  }

  /** A trade fails exactly when it would empty the base reserve. It moves the base reserve by its
  amount along the curve; a seller is paid what the quote reserve gives up at the peg, rounded down,
  and a buyer pays for one reserve unit more than it takes in, rounded down, and at most one quote
  unit on top. */
  lemma {:induction false} ExecuteKeepsCurve(p: Pool, t: Trade)
    requires OnCurve(p)
    ensures Execute(p, t).Err? <==> t.dir.RemoveBase? && t.amount >= p.base
    ensures Execute(p, t).Ok? ==>
              var q := Execute(p, t).value;
              && OnCurve(q) && q.sqrtK == p.sqrtK && q.peg == p.peg
              && q.base == (if t.dir.AddBase? then p.base + t.amount else p.base - t.amount)
              && q.buys == p.buys + (if t.dir.RemoveBase? then 1 else 0)
              && (t.dir.AddBase? ==>
                    && p.peg * (p.quote - q.quote) - RESERVE_TO_QUOTE < RESERVE_TO_QUOTE * (p.paid - q.paid)
                    && RESERVE_TO_QUOTE * (p.paid - q.paid) <= p.peg * (p.quote - q.quote))
              && (t.dir.RemoveBase? ==>
                    && p.peg * (q.quote - p.quote + 1) < RESERVE_TO_QUOTE * (q.paid - p.paid)
                    && RESERVE_TO_QUOTE * (q.paid - p.paid) <= p.peg * (q.quote - p.quote + 1) + RESERVE_TO_QUOTE)
  {
    var k := p.sqrtK * p.sqrtK;
    if !(t.dir.RemoveBase? && t.amount >= p.base) {
      var base := if t.dir.AddBase? then p.base + t.amount else p.base - t.amount;
      var quote := k / base;
      if t.dir.AddBase? {
        DivMonoDivisor(k, p.base, base);
        Charge(p.quote - quote, p.peg);
      } else {
        DivMonoDivisor(k, base, p.base);
        Charge(quote - p.quote + 1, p.peg);
      }
    }
  }

  lemma {:induction false} Charge(change: int, peg: nat)
    requires change >= 0
    ensures RESERVE_TO_QUOTE * ((change * peg) / RESERVE_TO_QUOTE) <= peg * change
    ensures RESERVE_TO_QUOTE * ((change * peg) / RESERVE_TO_QUOTE + 1) >= peg * change + 1
  {
    DivBounds(change * peg, RESERVE_TO_QUOTE);
  }

  /** From `p` to `q` traders paid what the quote reserve gained and one reserve unit for each
  purchase, with something on top for each purchase, and at most `units` quote units. */
  predicate Charged(p: Pool, q: Pool, units: nat)
  {
    var due := p.peg * (q.quote - p.quote + (q.buys - p.buys));
    due + (q.buys - p.buys) <= RESERVE_TO_QUOTE * (q.paid - p.paid) <= due + RESERVE_TO_QUOTE * units
  }

  lemma {:induction false} ChargedAgain(p: Pool, m: Pool, q: Pool, a: nat, b: nat)
    requires Charged(p, m, a) && Charged(m, q, b) && m.peg == p.peg
    ensures Charged(p, q, a + b)
  {
    Distrib(p.peg, q.quote - m.quote + (q.buys - m.buys), m.quote - p.quote + (m.buys - p.buys));
  }

  lemma {:induction false} ExecuteCharges(p: Pool, t: Trade)
    requires OnCurve(p) && Execute(p, t).Ok?
    ensures Charged(p, Execute(p, t).value, 1)
  {
    hide Execute;
    ExecuteKeepsCurve(p, t);
    var q := Execute(p, t).value;
    if t.dir.AddBase? {
      assert p.peg * (q.quote - p.quote) == -(p.peg * (p.quote - q.quote));
    }
  }

  /** Path independence: after any sequence of trades the quote reserve is exactly the floored
  hyperbola at the base reserve, whatever the path was, and the traders together have paid what it
  gained and one reserve unit for each purchase, to within one quote unit a trade. */
  lemma {:induction false} PathIndependent(p: Pool, ts: seq<Trade>)
    requires OnCurve(p)
    ensures var q := Run(p, ts);
            && OnCurve(q) && q.sqrtK == p.sqrtK && q.peg == p.peg && p.buys <= q.buys
            && q.base * q.quote <= p.sqrtK * p.sqrtK < q.base * (q.quote + 1)
            && Charged(p, q, |ts|)
    decreases |ts|
  {
    if ts == [] {
      DivBounds(p.sqrtK * p.sqrtK, p.base);
      Distrib(p.base, p.quote, 1);
    } else {
      hide Execute, Charged;
      ExecuteKeepsCurve(p, ts[0]);
      var m := match Execute(p, ts[0]) case Ok(q) => q case Err(_) => p;
      if Execute(p, ts[0]).Ok? { ExecuteCharges(p, ts[0]); } else { NothingCharged(p); }
      PathIndependent(m, ts[1..]);
      ChargedAgain(p, m, Run(m, ts[1..]), 1, |ts[1..]|);
    }
  }

  lemma {:induction false} NothingCharged(p: Pool)
    ensures Charged(p, p, 1)
  {
  }

  /** No free value: traders who bring the base reserve back to where it was have taken nothing
  out, and have paid something if they ever bought; but no more than one reserve unit for each
  purchase and one quote unit for each trade. */
  lemma {:induction false} ClosedLoopNeverPays(p: Pool, ts: seq<Trade>)
    requires OnCurve(p) && Run(p, ts).base == p.base
    ensures var q := Run(p, ts);
            && q.quote == p.quote && q.paid >= p.paid && (q.buys > p.buys ==> q.paid > p.paid)
            && RESERVE_TO_QUOTE * (q.paid - p.paid) <= p.peg * (q.buys - p.buys) + RESERVE_TO_QUOTE * |ts|
  {
    hide Run;
    PathIndependent(p, ts);
    var q := Run(p, ts);
    MulMono(0, q.buys - p.buys, p.peg);
  }

  // ------------------------------------------------------------------ trade to a price

  /** Integer square root, two bits at a time. */
  function Isqrt(n: nat): (r: nat)
    ensures r * r <= n < (r + 1) * (r + 1)
  {
    if n == 0 then 0
    else
      var h := Isqrt(n / 4);
      DoubleRoot(n, h);
      if (2 * h + 1) * (2 * h + 1) <= n then 2 * h + 1 else 2 * h
  }

  lemma {:induction false} DoubleRoot(n: nat, h: nat)
    requires h * h <= n / 4 < (h + 1) * (h + 1)
    ensures (2 * h) * (2 * h) <= n < (2 * h + 2) * (2 * h + 2)
  {
    assert (2 * h) * (2 * h) == 4 * (h * h);
    assert (2 * h + 2) * (2 * h + 2) == 4 * ((h + 1) * (h + 1));
  }

  lemma {:induction false} SquareMono(a: nat, b: nat)
    ensures a <= b <==> a * a <= b * b
  {
    if a <= b {
      MulMono(a, b, a);
      MulMono(a, b, b);
    } else {
      MulStrict(b, a, b + 1);
      MulMono(b + 1, a, a);
      assert a * a > b * b;
    }
  }

  lemma {:induction false} IsqrtMono(m: nat, n: nat)
    requires m <= n
    ensures Isqrt(m) <= Isqrt(n)
  {
    if Isqrt(m) > Isqrt(n) {
      SquareMono(Isqrt(n) + 1, Isqrt(m));
      assert false;
    }
  }

  datatype Side = Long | Short

  /** The AMM's spread-adjusted reserves, the basis fills execute against. */
  datatype Quotes = Quotes(sqrtK: nat, peg: nat, askBase: nat, bidBase: nat)

  /** The squared base reserve at the limit price, with the program's roundings. */
  function TargetSquared(sqrtK: nat, peg: nat, limit: nat): (r: nat)
    requires limit > 0
  {
    var k := sqrtK * sqrtK;
    DivGe(k * PRICE_PRECISION, limit, 0);
    var scaled := (k * PRICE_PRECISION) / limit;
    MulMono(0, scaled, peg);
    (scaled * peg) / PEG_PRECISION
  }

  function TargetBase(sqrtK: nat, peg: nat, limit: nat): (r: nat)
    requires limit > 0
  {
    Isqrt(TargetSquared(sqrtK, peg, limit))
  }

  /** `calculate_base_asset_amount_to_trade_to_price` */
  function SizeToLimit(q: Quotes, limit: nat, side: Side): (r: Result<(int, Side), Error>)
  {
    if limit == 0 then Err(InvalidLimitPrice)
    else
      var target := TargetBase(q.sqrtK, q.peg, limit);
      var before := if side.Long? then q.askBase else q.bidBase;
      if target > before then Ok((Min(target - before, U64_MAX), Short))
      else Ok((Min(before - target, U64_MAX), Long))
  }

  /** Three nested roundings bracket the exact target from both sides. */
  lemma {:induction false} TargetBrackets(sqrtK: nat, peg: nat, limit: nat)
    requires limit > 0
    ensures var b := TargetBase(sqrtK, peg, limit); var k := sqrtK * sqrtK;
            && (b * b) * (limit * PEG_PRECISION) <= k * PRICE_PRECISION * peg
            && k * PRICE_PRECISION * peg < limit * (PEG_PRECISION * ((b + 1) * (b + 1)) + peg)
            && TargetSquared(sqrtK, peg, limit) < (b + 1) * (b + 1)
  {
    var b := TargetBase(sqrtK, peg, limit);
    var kp := sqrtK * sqrtK * PRICE_PRECISION;
    DivGe(kp, limit, 0);
    DivBounds(kp, limit);
    var s := kp / limit;
    MulMono(0, s, peg);
    DivBounds(s * peg, PEG_PRECISION);
    BracketLow(b * b, limit, peg, s, kp);
    SquareMono(1, b + 1);
    BracketHigh((b + 1) * (b + 1), limit, peg, s, kp);
  }

  lemma {:induction false} BracketLow(bb: int, limit: nat, peg: nat, s: nat, kp: int)
    requires PEG_PRECISION * bb <= s * peg && limit * s <= kp
    ensures bb * (limit * PEG_PRECISION) <= kp * peg
  {
    calc {
      bb * (limit * PEG_PRECISION);
    == { Assoc(bb, PEG_PRECISION, limit); }
      (PEG_PRECISION * bb) * limit;
    <= { MulMono(PEG_PRECISION * bb, s * peg, limit); }
      (s * peg) * limit;
    == { Assoc(s, peg, limit); }
      (limit * s) * peg;
    <= { MulMono(limit * s, kp, peg); }
      kp * peg;
    }
  }

  lemma {:induction false} BracketHigh(bb: int, limit: nat, peg: nat, s: nat, kp: int)
    requires limit > 0 && bb > 0 && s * peg < PEG_PRECISION * bb && kp < limit * s + limit
    ensures kp * peg < limit * (PEG_PRECISION * bb + peg)
  {
    if peg == 0 {
      assert kp * peg == 0;
      MulStrict(0, limit, PEG_PRECISION * bb);
    } else {
      calc {
        kp * peg;
      < { Distrib(limit, s, 1); MulStrict(kp, limit * (s + 1), peg); }
        (limit * (s + 1)) * peg;
      == { Assoc(limit, s + 1, peg); }
        limit * ((s + 1) * peg);
      == { Distrib(peg, s, 1); }
        limit * (s * peg + peg);
      <= { MulMono(s * peg + peg, PEG_PRECISION * bb + peg, limit); }
        limit * (PEG_PRECISION * bb + peg);
      }
    }
  }

  /** The target separates prices: at it and below, the exact marginal price
  `k * peg / base^2` is at or above the limit; above it, below the limit but for the rounding
  of one peg unit. */
  lemma {:induction false} TargetSeparatesPrices(sqrtK: nat, peg: nat, limit: nat, base: nat)
    requires limit > 0
    ensures var k := sqrtK * sqrtK;
            if base <= TargetBase(sqrtK, peg, limit) then
              (base * base) * (limit * PEG_PRECISION) <= k * PRICE_PRECISION * peg
            else
              k * PRICE_PRECISION * peg < limit * (PEG_PRECISION * (base * base) + peg)
  {
    hide TargetBase;
    TargetBrackets(sqrtK, peg, limit);
    var b := TargetBase(sqrtK, peg, limit);
    if base <= b {
      SquareMono(base, b);
      MulMono(base * base, b * b, limit * PEG_PRECISION);
    } else {
      SquareMono(b + 1, base);
      MulMono(PEG_PRECISION * ((b + 1) * (b + 1)) + peg, PEG_PRECISION * (base * base) + peg, limit);
    }
  }

  /** A higher limit never asks for a larger base reserve. */
  lemma {:induction false} TargetFallsWithLimit(sqrtK: nat, peg: nat, low: nat, high: nat)
    requires 0 < low <= high
    ensures TargetBase(sqrtK, peg, high) <= TargetBase(sqrtK, peg, low)
  {
    var kp := sqrtK * sqrtK * PRICE_PRECISION;
    DivMonoDivisor(kp, low, high);
    DivGe(kp, high, 0);
    MulMono(kp / high, kp / low, peg);
    MulMono(0, kp / high, peg);
    DivMono((kp / high) * peg, (kp / low) * peg, PEG_PRECISION);
    IsqrtMono(TargetSquared(sqrtK, peg, high), TargetSquared(sqrtK, peg, low));
  }

  /** Executing the sized trade against the quoted reserves lands the base reserve exactly on
  the target, exactly unless the size was capped (or the target is an empty pool). */
  lemma {:induction false} SizedTradeLands(q: Quotes, limit: nat, side: Side)
    requires limit > 0
    ensures var target := TargetBase(q.sqrtK, q.peg, limit);
            var before := if side.Long? then q.askBase else q.bidBase;
            var (amount, dir) := SizeToLimit(q, limit, side).value;
            && amount >= 0
            && (var swap := SwapOutput(amount, before, if dir.Short? then AddBase else RemoveBase, q.sqrtK);
                (swap.Ok? && swap.value.1 == target) <==> (Abs(target - before) <= U64_MAX && target > 0))
  {
  }
}
