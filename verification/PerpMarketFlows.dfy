/** Where the tokens of a perp market go: every transfer arrives in its own pool, and no step makes or
loses value beyond stated rounding. */
module PerpMarketFlows {
  import opened Arith
  import opened SpotBalance
  import opened Funding
  import opened PerpMarket
  import opened PerpMarketRuns
  import FundingLedger
  import opened Wrappers

  // ------------------------------------------------------------------------------ sweep

  lemma {:induction false} FromPnlIs(m: Market, x: nat)
    requires m.index > 0 && m.pnlPool <= m.deposits && x <= PnlTokens(m)
    ensures FromPnl(m, x).Ok?
    ensures var (m', credit) := FromPnl(m, x).value;
            && m' == m.(pnlPool := m'.pnlPool, deposits := m'.deposits)
            && Debits(m.pnlPool, m'.pnlPool, x, m.index, PRECISION) && Credits(0, credit, x, m.index, PRECISION)
            && m'.deposits - m.deposits == m'.pnlPool - m.pnlPool + credit
            && m'.pnlPool + credit <= m.pnlPool
  {
    hide Tokens, ToScaled, Debits, Credits;
    FromPnlKeeps(m, x);
    DebitIs(m.pnlPool, x, m.index, PRECISION);
    CreditIs(0, x, m.index, PRECISION);
  }

  /** Tokens taken from the pnl pool went to the other pools, each its own amount, in three transfers. */
  predicate Distributed(m: Market, m': Market, protocol: nat, insurance: nat, provision: nat)
  {
    && Credits(m.protocolPool, m'.protocolPool, protocol, m.index, PRECISION)
    && Credits(m.revenuePool, m'.revenuePool, insurance, m.index, PRECISION)
    && Credits(m.feePool, m'.feePool, provision, m.index, PRECISION)
    && m'.pnlPool <= m.pnlPool && (protocol + insurance + provision == 0 ==> m'.pnlPool == m.pnlPool)
    && (protocol + insurance + provision) * PRECISION < (m.pnlPool - m'.pnlPool) * m.index + 3 * m.index
    && (m.pnlPool - m'.pnlPool) * m.index < (protocol + insurance + provision) * PRECISION + 3 * PRECISION
    && m'.deposits - m.deposits == Pools(m') - Pools(m)
  }

  lemma {:induction false} NothingCredited(pool: nat, index: nat)
    requires index > 0
    ensures Credits(pool, pool, 0, index, PRECISION)
  {
    assert (pool - pool) * index == 0;
  }

  /** One drain: the pnl pool pays `x`, and `credit` of it is to be added to another pool. */
  lemma {:induction false} OneDrain(m: Market, x: nat)
    requires m.index > 0 && Pools(m) <= m.deposits && x <= PnlTokens(m)
    ensures x <= m.pendingProtocol ==>
              && SweepProtocol(m, x).Ok?
              && var m' := SweepProtocol(m, x).value;
                 && m' == m.(pnlPool := m'.pnlPool, protocolPool := m'.protocolPool, deposits := m'.deposits,
                             pendingProtocol := m.pendingProtocol - x)
                 && Debits(m.pnlPool, m'.pnlPool, x, m.index, PRECISION)
                 && Credits(m.protocolPool, m'.protocolPool, x, m.index, PRECISION)
                 && m'.deposits - m.deposits == Pools(m') - Pools(m)
    ensures x <= m.pendingIf ==>
              && SweepInsurance(m, x).Ok?
              && var m' := SweepInsurance(m, x).value;
                 && m' == m.(pnlPool := m'.pnlPool, revenuePool := m'.revenuePool, deposits := m'.deposits,
                             pendingIf := m.pendingIf - x)
                 && Debits(m.pnlPool, m'.pnlPool, x, m.index, PRECISION)
                 && Credits(m.revenuePool, m'.revenuePool, x, m.index, PRECISION)
                 && m'.deposits - m.deposits == Pools(m') - Pools(m)
    ensures x <= m.pendingProvision ==>
              && SweepProvision(m, x).Ok?
              && var m' := SweepProvision(m, x).value;
                 && m' == m.(pnlPool := m'.pnlPool, feePool := m'.feePool, deposits := m'.deposits,
                             pendingProvision := m.pendingProvision - x)
                 && Debits(m.pnlPool, m'.pnlPool, x, m.index, PRECISION)
                 && Credits(m.feePool, m'.feePool, x, m.index, PRECISION)
                 && m'.deposits - m.deposits == Pools(m') - Pools(m)
  {
    hide Tokens, FromPnl, Debits, Credits;
    FromPnlIs(m, x);
    var credit := FromPnl(m, x).value.1;
    CreditShift(m.protocolPool, credit, x, m.index);
    CreditShift(m.revenuePool, credit, x, m.index);
    CreditShift(m.feePool, credit, x, m.index);
    if x == 0 {
      NothingMoves(m.pnlPool, m.index);
      NothingCredited(m.protocolPool, m.index);
      NothingCredited(m.revenuePool, m.index);
      NothingCredited(m.feePool, m.index);
    }
  }

  lemma {:induction false} CreditShift(pool: nat, credit: nat, x: nat, index: nat)
    requires Credits(0, credit, x, index, PRECISION)
    ensures Credits(pool, pool + credit, x, index, PRECISION)
  {
  }

  lemma {:induction false} NothingMoves(pool: nat, index: nat)
    requires index > 0
    ensures Debits(pool, pool, 0, index, PRECISION)
  {
    assert (pool - pool) * index == 0;
  }

  /** The sweep in full. Nothing moves while it is paused, unless forced. Otherwise the protocol's
  cut is all that is pending and free of the users' positive pnl, the held part of the insurance
  counter and the pending revenue share; the insurance cut is what is pending above that part, and
  the AMM's provision what is pending, of what is then left above the buffer. Each goes to its own
  pool. */
  lemma {:induction false} SweepMovesExactly(m: Market, s: SweepInputs)
    requires Inv(m)
    ensures Sweep(m, s).Ok?
    ensures var (m', w) := Sweep(m, s).value;
            var held := if s.force then 0 else if m.claims > 0 then m.pendingIf else s.standing;
            var free := SatSub(PnlTokens(m), Max(s.netUserPnl, 0) + Min(m.pendingIf, held) + s.revenueShare);
            if s.paused && !s.force then m' == m && w == Swept(0, 0, 0)
            else
              && w.protocol == Min(m.pendingProtocol, free)
              && w.insurance == Min(SatSub(m.pendingIf, held), SatSub(free - w.protocol, s.buffer))
              && w.provision == Min(m.pendingProvision, SatSub(free - w.protocol, s.buffer) - w.insurance)
              && Moved(m, m', w.protocol, w.insurance, w.provision)
              && Distributed(m, m', w.protocol, w.insurance, w.provision)
  {
    hide PnlTokens, SweepProtocol, SweepInsurance, SweepProvision, Distributed, Moved;
    SweepLeavesReserve(m, s);
    if (!s.force && s.paused) || (m.pendingProtocol == 0 && m.pendingIf == 0 && m.pendingProvision == 0) {
      NothingSwept(m, s);
      NothingDistributed(m);
    } else {
      var held := if s.force then 0 else if m.claims > 0 then m.pendingIf else s.standing;
      var free := SatSub(PnlTokens(m), Max(s.netUserPnl, 0) + Min(m.pendingIf, held) + s.revenueShare);
      var p := Min(m.pendingProtocol, free);
      var i := Min(SatSub(m.pendingIf, held), SatSub(free - p, s.buffer));
      var v := Min(m.pendingProvision, SatSub(free - p, s.buffer) - i);
      SweepStages(m, s, p, i, v);
    }
  }

  lemma {:induction false} NothingDistributed(m: Market)
    requires m.index > 0
    ensures Distributed(m, m, 0, 0, 0)
  {
    NothingCredited(m.protocolPool, m.index);
    NothingCredited(m.revenuePool, m.index);
    NothingCredited(m.feePool, m.index);
    NothingMoves(m.pnlPool, m.index);
  }

  lemma {:induction false} SweepStages(m: Market, s: SweepInputs, p: nat, i: nat, v: nat)
    requires Inv(m) && p <= m.pendingProtocol && i <= m.pendingIf && v <= m.pendingProvision
    requires p + i + v <= PnlTokens(m)
    requires !((!s.force && s.paused) || (m.pendingProtocol == 0 && m.pendingIf == 0 && m.pendingProvision == 0))
    requires var unbuffered := SatSub(PnlTokens(m), Reserved(m, s));
             var available := SatSub(unbuffered - Min(m.pendingProtocol, unbuffered), s.buffer);
             && p == Min(m.pendingProtocol, unbuffered)
             && i == Min(SatSub(m.pendingIf, Floor(m, s.standing, s.force)), available)
             && v == Min(m.pendingProvision, available - i)
    ensures Sweep(m, s).Ok? && Sweep(m, s).value.1 == Swept(i, p, v)
    ensures Distributed(m, Sweep(m, s).value.0, p, i, v)
  {
    hide PnlTokens, SweepProtocol, SweepInsurance, SweepProvision, Reserved, Floor, Sweep, Debits, Credits;
    OneDrain(m, p);
    var m1 := SweepProtocol(m, p).value;
    ProtocolMoves(m, p);
    OneDrain(m1, i);
    var m2 := SweepInsurance(m1, i).value;
    InsuranceMoves(m1, i);
    OneDrain(m2, v);
    var m3 := SweepProvision(m2, v).value;
    SweepIs(m, s, m1, m2, m3, Swept(i, p, v));
    ThreeDebits(m.pnlPool, m1.pnlPool, m2.pnlPool, m3.pnlPool, p, i, v, m.index);
  }

  lemma {:induction false} ThreeDebits(a: nat, b: nat, c: nat, d: nat, p: nat, i: nat, v: nat, index: nat)
    requires index > 0 && Debits(a, b, p, index, PRECISION)
    requires Debits(b, c, i, index, PRECISION) && Debits(c, d, v, index, PRECISION)
    ensures var paid := p + i + v;
            && d <= a && (paid == 0 ==> d == a)
            && paid * PRECISION < (a - d) * index + 3 * index
            && (a - d) * index < paid * PRECISION + 3 * PRECISION
  {
    Distrib(index, a - b, b - c);
    Distrib(index, a - c, c - d);
  }

  // ------------------------------------------------------------------------- resolution

  lemma {:induction false} InsuranceArrives(m: Market, loss: nat)
    requires Inv(m)
    ensures DrawInsurance(m, loss).Ok?
    ensures var (m', x) := DrawInsurance(m, loss).value;
            && m' == m.(settledInsurance := m.settledInsurance + x, vault := m.vault - x,
                        pnlPool := m'.pnlPool, deposits := m'.deposits)
            && Credits(m.pnlPool, m'.pnlPool, x, m.index, PRECISION)
            && m'.deposits - m.deposits == m'.pnlPool - m.pnlPool
            && Inv(m')
  {
    hide ToScaled, Credits;
    InsurancePays(m, loss);
    CreditIs(m.pnlPool, DrawInsurance(m, loss).value.1, m.index, PRECISION);
  }

  lemma {:induction false} ClawbackArrives(m: Market, rest: nat)
    requires Inv(m)
    ensures Clawback(m, rest).Ok?
    ensures var (m', untok, tok) := Clawback(m, rest).value;
            && untok == Min(Min(rest, m.ammReceived), m.pendingProvision)
            && tok == Min(Min(rest, m.ammReceived) - untok, FeeTokens(m))
            && m' == m.(feePool := m'.feePool, pnlPool := m'.pnlPool, deposits := m'.deposits,
                        pendingProvision := m.pendingProvision - untok,
                        ammReceived := m.ammReceived - untok - tok, ammEquity := m.ammEquity - untok - tok)
            && Debits(m.feePool, m'.feePool, tok, m.index, PRECISION)
            && Credits(m.pnlPool, m'.pnlPool, tok, m.index, PRECISION)
            && m'.deposits - m.deposits == (m'.pnlPool - m.pnlPool) + (m'.feePool - m.feePool)
            && Inv(m')
  {
    hide ToScaled, Credits, Debits, Tokens;
    ClawbackPays(m, rest);
    var (m', untok, tok) := Clawback(m, rest).value;
    if tok == 0 {
      NothingMoves(m.feePool, m.index);
      NothingCredited(m.pnlPool, m.index);
    } else {
      DebitIs(m.feePool, tok, m.index, PRECISION);
      CreditIs(m.pnlPool, tok, m.index, PRECISION);
    }
  }

  /** A socialized loss moves the long rate up and the short rate down by the same bump, which over
  the whole open interest raises the loss and less than one rounding unit more; the AMM's stamps
  move along, so that it pays none of it. */
  predicate Levied(m: Market, m': Market, loss: nat)
  {
    var bump := m'.cumLong - m.cumLong;
    && m.cumShort - m'.cumShort == bump
    && m'.ammLong == m'.cumLong && m'.ammShort == m'.cumShort
    && (loss == 0 ==> bump == 0)
    && (loss > 0 ==> 0 <= bump * (m.long + m.short) - QUOTE_TO_BASE * loss < RATE_TO_QUOTE * (m.long + m.short))
  }

  lemma {:induction false} SocializeLevies(m: Market, loss: nat)
    requires Inv(m) && Socialize(m, loss).Ok?
    ensures Levied(m, Socialize(m, loss).value, loss)
  {
    hide AmmPayment, FundingLedger.SocialDelta;
    if loss > 0 { FundingLedger.SocialDeltaCovers(loss, m.long + m.short); }
  }

  lemma {:induction false} LeviedSame(m: Market, m1: Market, m2: Market, m': Market, loss: nat)
    requires Levied(m1, m2, loss)
    requires m1.cumLong == m.cumLong && m1.cumShort == m.cumShort && m1.long == m.long && m1.short == m.short
    requires m'.cumLong == m2.cumLong && m'.cumShort == m2.cumShort
    requires m'.ammLong == m2.ammLong && m'.ammShort == m2.ammShort
    ensures Levied(m, m', loss)
  {
  }

  /** A resolution's tokens, in full: what the vault and the fee pool pay arrives in the pnl pool,
  short by less than one index unit for each of the two transfers; the untokenized provision and the
  pending fees are written off their counters; no other pool and no counter moves; and the deposits
  follow the pools. */
  lemma {:induction false} ResolveMovesExactly(m: Market, loss: nat, booked: bool)
    requires Inv(m) && Resolve(m, loss, booked).Ok?
    ensures var (m', w) := Resolve(m, loss, booked).value;
            var budget := Min(loss - w.pendingFee - w.insurance, m.ammReceived);
            && loss - w.pendingFee - w.insurance >= 0
            && w.untokenized == Min(budget, m.pendingProvision)
            && w.tokenized == Min(budget - w.untokenized, FeeTokens(m))
            && m' == m.(pendingIf := m.pendingIf - w.pendingFee,
                        settledInsurance := m.settledInsurance + w.insurance, vault := m.vault - w.insurance,
                        pendingProvision := m.pendingProvision - w.untokenized,
                        ammReceived := m.ammReceived - w.untokenized - w.tokenized,
                        ammEquity := m.ammEquity - w.untokenized - w.tokenized,
                        unsettledFunding := m.unsettledFunding - w.socialized,
                        socialLoss := m.socialLoss + w.socialized,
                        claims := if booked then SatSub(m.claims, 1) else m.claims,
                        pnlPool := m'.pnlPool, feePool := m'.feePool, deposits := m'.deposits,
                        cumLong := m'.cumLong, cumShort := m'.cumShort, ammLong := m'.ammLong, ammShort := m'.ammShort)
            && Debits(m.feePool, m'.feePool, w.tokenized, m.index, PRECISION)
            && m.pnlPool <= m'.pnlPool
            && (m'.pnlPool - m.pnlPool) * m.index <= (w.insurance + w.tokenized) * PRECISION
                 < (m'.pnlPool - m.pnlPool) * m.index + 2 * m.index
            && m'.deposits - m.deposits == Pools(m') - Pools(m)
            && Levied(m, m', w.socialized)
  {
    hide DrawInsurance, Clawback, Socialize, FeeTokens, PnlTokens, Debits, Credits, Levied;
    var (m1, fee) := DrawPending(m, loss);
    SamePools(m, m1);
    InsuranceArrives(m1, loss - fee);
    InsurancePays(m1, loss - fee);
    var (m2, ins) := DrawInsurance(m1, loss - fee).value;
    ClawbackArrives(m2, loss - fee - ins);
    var (m3, untok, tok) := Clawback(m2, loss - fee - ins).value;
    SocializeKeeps(m3, loss - fee - ins - untok - tok);
    SocializeLevies(m3, loss - fee - ins - untok - tok);
    LeviedSame(m, m3, Socialize(m3, loss - fee - ins - untok - tok).value, Resolve(m, loss, booked).value.0,
               loss - fee - ins - untok - tok);
    TwoCredits(m.pnlPool, m2.pnlPool, m3.pnlPool, ins, tok, m.index);
  }

  lemma {:induction false} TwoCredits(a: nat, b: nat, c: nat, x: nat, y: nat, index: nat)
    requires Credits(a, b, x, index, PRECISION) && Credits(b, c, y, index, PRECISION)
    ensures a <= c && (c - a) * index <= (x + y) * PRECISION < (c - a) * index + 2 * index
  {
    Distrib(index, c - b, b - a);
  }

  /** A deficit draw arrives in the pnl pool, and the deposits follow. */
  lemma {:induction false} DeficitArrives(m: Market, d: DeficitInputs)
    requires Inv(m) && ResolveDeficit(m, d).Ok?
    ensures var (m', x) := ResolveDeficit(m, d).value;
            && Credits(m.pnlPool, m'.pnlPool, x, m.index, PRECISION)
            && m'.deposits - m.deposits == Pools(m') - Pools(m)
            && x == Min(Min(d.excess, m.periodCap - m.periodDrawn),
                        Min(m.maxInsurance - m.settledInsurance, m.vault - 1))
  {
    hide ToScaled, Credits, Tokens;
    DeficitDraws(m, d);
    CreditIs(m.pnlPool, ResolveDeficit(m, d).value.1, m.index, PRECISION);
  }

  // ------------------------------------------------------------------ conservation of value

  /** What the market's pools and the insurance vault are worth together, in index units. */
  function Worth(m: Market): (r: int)
  {
    Pools(m) * m.index + m.vault * PRECISION
  }

  /** What an event brings in from outside, or takes out. */
  function Brought(m: Market, e: Event): (r: int)
    requires m.index > 0
  {
    match e
    case AccrueInterest(g) => Pools(m) * g
    case PnlInflow(x) => x * PRECISION
    case PnlOutflow(x) => if x <= PnlTokens(m) then -(x * PRECISION) else 0
    case FundVault(x) => x * PRECISION
    case DrainVault(x) => if x < m.vault then -(x * PRECISION) else 0
    case _ => 0
  }

  /** How many transfers between balances an event makes at most. */
  function Transfers(e: Event): (r: nat)
  {
    match e
    case SweepFees(_) => 3
    case ResolveBankruptcy(_, _) => 2
    case DrawDeficit(_) => 1
    case PnlInflow(_) => 1
    case PnlOutflow(_) => 1
    case _ => 0
  }

  /** No event creates value but for the rounding of a payout to a user, and every transfer loses
  less than one index unit and one token to rounding. */
  predicate Conserves(m: Market, m': Market, brought: int, transfers: nat, payouts: nat)
  {
    brought - transfers * (m.index + PRECISION) <= Worth(m') - Worth(m) <= brought + payouts * m.index
  }

  lemma {:induction false} StepConserves(m: Market, e: Event)
    requires Inv(m)
    ensures Conserves(m, Step(m, e), Brought(m, e), Transfers(e), if e.PnlOutflow? then 1 else 0)
  {
    hide Sweep, Resolve, ResolveDeficit, FromPnl, Tokens;
    match e
    case SweepFees(s) => SweepConserves(m, s);
    case ResolveBankruptcy(loss, booked) =>
      ResolveSplitsLoss(m, loss, booked);
      if Resolve(m, loss, booked).Ok? { ResolveConserves(m, loss, booked); }
    case DrawDeficit(d) =>
      DeficitDraws(m, d);
      if ResolveDeficit(m, d).Ok? { DeficitConserves(m, d); }
    case AccrueInterest(g) => Distrib(Pools(m), m.index, g);
    case PnlInflow(x) => InflowConserves(m, x);
    case PnlOutflow(x) => OutflowConserves(m, x);
    case FundVault(x) => Distrib(PRECISION, m.vault, x);
    case DrainVault(x) => Distrib(PRECISION, m.vault, x);
    case _ =>
  }

  lemma {:induction false} SweepConserves(m: Market, s: SweepInputs)
    requires Inv(m)
    ensures Sweep(m, s).Ok? && Conserves(m, Sweep(m, s).value.0, 0, 3, 0)
  {
    hide Sweep, PnlTokens;
    SweepMovesExactly(m, s);
    SweepLeavesReserve(m, s);
    var (m', w) := Sweep(m, s).value;
    if m' == m {
      MulMono(0, 3, m.index + PRECISION);
    } else {
      SweepNeverGains(m, s);
      DistributedWorth(m, m', w.protocol, w.insurance, w.provision);
    }
  }

  lemma {:induction false} DistributedWorth(m: Market, m': Market, p: nat, i: nat, v: nat)
    requires m.index > 0 && m'.index == m.index && m'.vault == m.vault && Distributed(m, m', p, i, v)
    ensures Worth(m') - Worth(m) >= -3 * (m.index + PRECISION)
  {
    var x := m.index;
    Distrib(x, m'.protocolPool - m.protocolPool, m'.revenuePool - m.revenuePool);
    Distrib(x, m'.protocolPool - m.protocolPool + m'.revenuePool - m.revenuePool, m'.feePool - m.feePool);
    Distrib(x, Pools(m'), Pools(m));
    Distrib(x, m'.protocolPool - m.protocolPool + m'.revenuePool - m.revenuePool + m'.feePool - m.feePool,
            m.pnlPool - m'.pnlPool);
    Distrib(PRECISION, p + i, v);
    Distrib(PRECISION, p, i);
  }

  /** A sweep adds to the other pools no more than it takes from the pnl pool. */
  lemma {:induction false} SweepNeverGains(m: Market, s: SweepInputs)
    requires Inv(m)
    ensures Sweep(m, s).Ok? && Pools(Sweep(m, s).value.0) <= Pools(m)
    ensures Pools(Sweep(m, s).value.0) * m.index <= Pools(m) * m.index
  {
    hide PnlTokens, SweepProtocol, SweepInsurance, SweepProvision;
    if (!s.force && s.paused) || (m.pendingProtocol == 0 && m.pendingIf == 0 && m.pendingProvision == 0) {
      NothingSwept(m, s);
    } else {
      var unbuffered := SatSub(PnlTokens(m), Reserved(m, s));
      var p := Min(m.pendingProtocol, unbuffered);
      DrainNeverGains(m, p);
      ProtocolMoves(m, p);
      var m1 := SweepProtocol(m, p).value;
      var available := SatSub(unbuffered - p, s.buffer);
      var i := Min(SatSub(m.pendingIf, Floor(m, s.standing, s.force)), available);
      DrainNeverGains(m1, i);
      InsuranceMoves(m1, i);
      var m2 := SweepInsurance(m1, i).value;
      var v := Min(m.pendingProvision, available - i);
      DrainNeverGains(m2, v);
      ProvisionMoves(m2, v);
      SweepIs(m, s, m1, m2, SweepProvision(m2, v).value, Swept(i, p, v));
    }
    MulMono(Pools(Sweep(m, s).value.0), Pools(m), m.index);
  }

  lemma {:induction false} DrainNeverGains(m: Market, x: nat)
    requires m.index > 0 && Pools(m) <= m.deposits && x <= PnlTokens(m)
    ensures x <= m.pendingProtocol ==> SweepProtocol(m, x).Ok? && Pools(SweepProtocol(m, x).value) <= Pools(m)
    ensures x <= m.pendingIf ==> SweepInsurance(m, x).Ok? && Pools(SweepInsurance(m, x).value) <= Pools(m)
    ensures x <= m.pendingProvision ==> SweepProvision(m, x).Ok? && Pools(SweepProvision(m, x).value) <= Pools(m)
  {
    hide FromPnl, Tokens;
    FromPnlKeeps(m, x);
  }

  lemma {:induction false} ResolveConserves(m: Market, loss: nat, booked: bool)
    requires Inv(m) && Resolve(m, loss, booked).Ok?
    ensures Conserves(m, Resolve(m, loss, booked).value.0, 0, 2, 0)
  {
    hide Resolve, FeeTokens;
    ResolveMovesExactly(m, loss, booked);
    ResolveNeverGains(m, loss, booked);
    var (m', w) := Resolve(m, loss, booked).value;
    Distrib(m.index, Pools(m'), Pools(m));
    Distrib(m.index, m'.pnlPool - m.pnlPool, m.feePool - m'.feePool);
    Distrib(PRECISION, m.vault, w.insurance);
    Distrib(PRECISION, w.insurance, w.tokenized);
  }

  lemma {:induction false} NeverGains(m: Market, m': Market)
    requires m'.index == m.index && m'.vault == m.vault && Pools(m') <= Pools(m)
    ensures Worth(m') <= Worth(m)
  {
    MulMono(Pools(m'), Pools(m), m.index);
  }

  /** The fee pool gives up at least what the pnl pool is credited for it. */
  lemma {:induction false} ResolveNeverGains(m: Market, loss: nat, booked: bool)
    requires Inv(m) && Resolve(m, loss, booked).Ok?
    ensures Worth(Resolve(m, loss, booked).value.0) <= Worth(m)
  {
    hide DrawInsurance, Clawback, Socialize, Credits, Debits, FeeTokens, PnlTokens, Worth, Tokens, Min;
    var (m1, fee) := DrawPending(m, loss);
    NeverGains(m, m1);
    InsuranceArrives(m1, loss - fee);
    var (m2, ins) := DrawInsurance(m1, loss - fee).value;
    InsurancePays(m1, loss - fee);
    ClawbackArrives(m2, loss - fee - ins);
    ClawNeverGains(m2, loss - fee - ins);
    var (m3, untok, tok) := Clawback(m2, loss - fee - ins).value;
    SocializeKeeps(m3, loss - fee - ins - untok - tok);
    DrawNeverGains(m1, m2, ins);
    NeverGains(m2, Resolve(m, loss, booked).value.0);
  }

  lemma {:induction false} DrawNeverGains(m: Market, m': Market, x: nat)
    requires m'.index == m.index && x <= m.vault && m'.vault == m.vault - x
    requires Credits(m.pnlPool, m'.pnlPool, x, m.index, PRECISION) && Pools(m') - Pools(m) == m'.pnlPool - m.pnlPool
    ensures Worth(m') <= Worth(m) < Worth(m') + m.index
  {
    Distrib(m.index, Pools(m'), Pools(m));
    Distrib(PRECISION, m.vault, x);
  }

  lemma {:induction false} ClawNeverGains(m: Market, rest: nat)
    requires Inv(m)
    ensures Clawback(m, rest).Ok? && Pools(Clawback(m, rest).value.0) <= Pools(m)
  {
    hide ToScaled, Tokens;
    var budget := Min(rest, m.ammReceived);
    var (m1, untok) := ClawUntokenized(m, budget);
    ClawKeeps(m1, budget - untok);
    var x := Min(budget - untok, FeeTokens(m1));
    if x > 0 { DebitKeeps(m1.feePool, x, m1.index, PRECISION); }
  }

  lemma {:induction false} DeficitConserves(m: Market, d: DeficitInputs)
    requires Inv(m) && ResolveDeficit(m, d).Ok?
    ensures Conserves(m, ResolveDeficit(m, d).value.0, 0, 1, 0)
  {
    hide ResolveDeficit, Credits, Tokens;
    DeficitDraws(m, d);
    DeficitArrives(m, d);
    var (m', x) := ResolveDeficit(m, d).value;
    DrawNeverGains(m, m', x);
  }

  lemma {:induction false} InflowConserves(m: Market, x: nat)
    requires Inv(m)
    ensures Conserves(m, Step(m, PnlInflow(x)), x * PRECISION, 1, 0)
  {
    hide ToScaled;
    CreditIs(m.pnlPool, x, m.index, PRECISION);
    var m' := Step(m, PnlInflow(x));
    Distrib(m.index, Pools(m'), Pools(m));
  }

  lemma {:induction false} OutflowConserves(m: Market, x: nat)
    requires Inv(m)
    ensures Conserves(m, Step(m, PnlOutflow(x)), Brought(m, PnlOutflow(x)), 1, 1)
  {
    hide FromPnl, Tokens;
    var m' := Step(m, PnlOutflow(x));
    if x <= PnlTokens(m) {
      FromPnlIs(m, x);
      Distrib(m.index, Pools(m), Pools(m'));
    } else {
      OutflowFails(m, x);
    }
  }

  lemma {:induction false} OutflowFails(m: Market, x: nat)
    requires m.index > 0 && x > PnlTokens(m)
    ensures Step(m, PnlOutflow(x)) == m
  {
  }

  // ---------------------------------------------------------------------------- whole runs

  function AllBrought(m: Market, es: seq<Event>): (r: int)
    requires m.index > 0
    decreases |es|
  {
    if es == [] then 0 else Brought(m, es[0]) + AllBrought(Step(m, es[0]), es[1..])
  }

  /** What rounding may have lost, at the index of each step. */
  function AllLost(m: Market, es: seq<Event>): (r: int)
    requires m.index > 0
    decreases |es|
  {
    if es == [] then 0 else Transfers(es[0]) * (m.index + PRECISION) + AllLost(Step(m, es[0]), es[1..])
  }

  /** What rounding may have given to the pools, at the index of each payout. */
  function AllGained(m: Market, es: seq<Event>): (r: int)
    requires m.index > 0
    decreases |es|
  {
    if es == [] then 0
    else (if es[0].PnlOutflow? then m.index else 0) + AllGained(Step(m, es[0]), es[1..])
  }

  /** Over every run of sweeps, resolutions, deficit draws, settlements and interest, the pools and
  the insurance vault together are worth what they were and what was brought in, less at most one
  index unit and one token for each transfer, plus at most one index unit for each payout. */
  lemma {:induction false} RunConservesWorth(m: Market, es: seq<Event>)
    requires Inv(m)
    ensures AllBrought(m, es) - AllLost(m, es) <= Worth(Run(m, es)) - Worth(m) <= AllBrought(m, es) + AllGained(m, es)
    decreases |es|
  {
    hide Step, Worth, Brought, Transfers;
    if es == [] {
    } else {
      StepKeepsInv(m, es[0]);
      StepConserves(m, es[0]);
      RunConservesWorth(Step(m, es[0]), es[1..]);
    }
  }

  /** And the deposits of the quote market cover exactly what the pools do not: they follow the pools
  but for what is paid out to users, who hold it as deposits. */
  lemma {:induction false} DepositsFollowPools(m: Market, e: Event)
    requires Inv(m) && !e.PnlOutflow?
    ensures Step(m, e).deposits - m.deposits == Pools(Step(m, e)) - Pools(m)
  {
    hide Sweep, Resolve, ResolveDeficit, ToScaled;
    match e
    case SweepFees(s) => SweepLeavesReserve(m, s);
    case ResolveBankruptcy(loss, booked) =>
      ResolveSplitsLoss(m, loss, booked);
      if Resolve(m, loss, booked).Ok? { ResolveMovesExactly(m, loss, booked); }
    case DrawDeficit(d) =>
      DeficitDraws(m, d);
      if ResolveDeficit(m, d).Ok? { DeficitArrives(m, d); }
    case _ =>
  }
}
