/** What every sweep and every bankruptcy resolution keeps, over whole runs. */
module PerpMarketRuns {
  import opened Arith
  import opened SpotBalance
  import opened Funding
  import opened PerpMarket
  import FundingLedger
  import opened Wrappers

  function Pools(m: Market): (r: nat)
  {
    m.pnlPool + m.feePool + m.protocolPool + m.revenuePool
  }

  /** The lifetime insurance cap holds, the untokenized AMM provision is part of the clawback
  cap, the quote market's deposits cover the market's pools, the vault is not empty, the AMM is
  settled up to the current funding rates, and deficit draws are within their period's cap. */
  predicate Inv(m: Market)
  {
    && m.index > 0
    && m.settledInsurance <= m.maxInsurance
    && m.pendingProvision <= m.ammReceived
    && Pools(m) <= m.deposits
    && m.vault >= 1
    && m.ammLong == m.cumLong && m.ammShort == m.cumShort
    && m.periodDrawn <= m.periodCap
  }

  /** The floored insurance tranche is backed by pnl-pool and fee-pool tokens, but for `open`. */
  predicate Backed(m: Market, standing: nat, open: nat)
  {
    PnlTokens(m) + FeeTokens(m) + open >= Min(m.pendingIf, standing)
  }

  // ------------------------------------------------------------------------------ sweep

  lemma {:induction false} FromPnlKeeps(m: Market, x: nat)
    requires m.index > 0 && m.pnlPool <= m.deposits && x <= PnlTokens(m)
    ensures FromPnl(m, x).Ok?
    ensures var (m', credit) := FromPnl(m, x).value;
            && m' == m.(pnlPool := m'.pnlPool, deposits := m'.deposits)
            && PnlTokens(m') >= PnlTokens(m) - x
            && m'.deposits - m.deposits == m'.pnlPool - m.pnlPool + credit
            && m'.pnlPool + credit <= m.pnlPool
  {
    hide ToScaled, Tokens;
    DebitKeeps(m.pnlPool, x, m.index, PRECISION);
  }

  /** `x` left the pnl pool for other pools of the market; counters fell by what was moved. */
  predicate Moved(m: Market, m': Market, protocol: int, insurance: int, provision: int)
  {
    && 0 <= protocol <= m.pendingProtocol && 0 <= insurance <= m.pendingIf && 0 <= provision <= m.pendingProvision
    && m' == m.(pnlPool := m'.pnlPool, feePool := m'.feePool, protocolPool := m'.protocolPool,
                revenuePool := m'.revenuePool, deposits := m'.deposits,
                pendingProtocol := m.pendingProtocol - protocol,
                pendingIf := m.pendingIf - insurance,
                pendingProvision := m.pendingProvision - provision)
    && m'.deposits - m.deposits == Pools(m') - Pools(m)
    && m.index > 0
    && PnlTokens(m') >= PnlTokens(m) - protocol - insurance - provision
  }

  lemma {:induction false} MovedAgain(m: Market, m1: Market, m2: Market, p: int, i: int, v: int,
                                      p': int, i': int, v': int)
    requires Moved(m, m1, p, i, v) && Moved(m1, m2, p', i', v')
    ensures Moved(m, m2, p + p', i + i', v + v')
  {
    hide PnlTokens;
  }

  lemma {:induction false} ProtocolMoves(m: Market, x: nat)
    requires m.index > 0 && Pools(m) <= m.deposits && x <= PnlTokens(m) && x <= m.pendingProtocol
    ensures SweepProtocol(m, x).Ok? && Moved(m, SweepProtocol(m, x).value, x, 0, 0)
  {
    hide FromPnl, Tokens;
    FromPnlKeeps(m, x);
  }

  lemma {:induction false} InsuranceMoves(m: Market, x: nat)
    requires m.index > 0 && Pools(m) <= m.deposits && x <= PnlTokens(m) && x <= m.pendingIf
    ensures SweepInsurance(m, x).Ok? && Moved(m, SweepInsurance(m, x).value, 0, x, 0)
  {
    hide FromPnl, Tokens;
    FromPnlKeeps(m, x);
  }

  lemma {:induction false} ProvisionMoves(m: Market, x: nat)
    requires m.index > 0 && Pools(m) <= m.deposits && x <= PnlTokens(m) && x <= m.pendingProvision
    ensures SweepProvision(m, x).Ok? && Moved(m, SweepProvision(m, x).value, 0, 0, x)
  {
    hide FromPnl, Tokens;
    FromPnlKeeps(m, x);
  }

  /** The sweep always goes through; the counters fall by exactly what was moved; and whatever
  it moved, the pnl pool still holds the reserved claims, with the retention buffer on top if
  an insurance or provision drain took place. */
  lemma {:induction false} SweepLeavesReserve(m: Market, s: SweepInputs)
    requires Inv(m)
    ensures Sweep(m, s).Ok?
    ensures var (m', w) := Sweep(m, s).value;
            && Inv(m') && Moved(m, m', w.protocol, w.insurance, w.provision)
            && (w == Swept(0, 0, 0) ==> m' == m)
            && (w != Swept(0, 0, 0) ==> PnlTokens(m') >= Reserved(m, s))
            && (w.insurance + w.provision > 0 ==> PnlTokens(m') >= Reserved(m, s) + s.buffer)
            && (w.insurance > 0 ==> m'.pendingIf >= Floor(m, s.standing, s.force))
  {
    hide PnlTokens, SweepProtocol, SweepInsurance, SweepProvision, Reserved;
    if (!s.force && s.paused) || (m.pendingProtocol == 0 && m.pendingIf == 0 && m.pendingProvision == 0) {
      NothingSwept(m, s);
    } else {
      var unbuffered := SatSub(PnlTokens(m), Reserved(m, s));
      var protocol := Min(m.pendingProtocol, unbuffered);
      ProtocolMoves(m, protocol);
      var m1 := SweepProtocol(m, protocol).value;
      var available := SatSub(unbuffered - protocol, s.buffer);
      var insurance := Min(SatSub(m.pendingIf, Floor(m, s.standing, s.force)), available);
      InsuranceMoves(m1, insurance);
      var m2 := SweepInsurance(m1, insurance).value;
      MovedAgain(m, m1, m2, protocol, 0, 0, 0, insurance, 0);
      var provision := Min(m.pendingProvision, available - insurance);
      ProvisionMoves(m2, provision);
      var m3 := SweepProvision(m2, provision).value;
      MovedAgain(m, m2, m3, protocol, insurance, 0, 0, 0, provision);
      SweepIs(m, s, m1, m2, m3, Swept(insurance, protocol, provision));
    }
  }

  lemma {:induction false} NothingSwept(m: Market, s: SweepInputs)
    requires m.index > 0
    requires (!s.force && s.paused) || (m.pendingProtocol == 0 && m.pendingIf == 0 && m.pendingProvision == 0)
    ensures Sweep(m, s) == Ok((m, Swept(0, 0, 0))) && Moved(m, m, 0, 0, 0)
  {
  }

  /** The sweep, stage by stage. */
  lemma {:induction false} SweepIs(m: Market, s: SweepInputs, m1: Market, m2: Market, m3: Market, w: Swept)
    requires m.index > 0 && m1.index > 0 && m2.index > 0
    requires !((!s.force && s.paused) || (m.pendingProtocol == 0 && m.pendingIf == 0 && m.pendingProvision == 0))
    requires var unbuffered := SatSub(PnlTokens(m), Reserved(m, s));
             var available := SatSub(unbuffered - Min(m.pendingProtocol, unbuffered), s.buffer);
             && w.protocol == Min(m.pendingProtocol, unbuffered)
             && w.insurance == Min(SatSub(m.pendingIf, Floor(m, s.standing, s.force)), available)
             && w.provision == Min(m.pendingProvision, available - w.insurance)
    requires SweepProtocol(m, w.protocol) == Ok(m1)
    requires SweepInsurance(m1, w.insurance) == Ok(m2)
    requires SweepProvision(m2, w.provision) == Ok(m3)
    ensures Sweep(m, s) == Ok((m3, w))
    ensures w == Swept(0, 0, 0) ==> m3 == m
  {
    hide PnlTokens, Reserved, FromPnl;
  }

  /** Sweeps cannot unback the tranche, latched or not, and one that moves anything leaves it
  fully backed. */
  lemma {:induction false} SweepKeepsBacking(m: Market, s: SweepInputs, open: nat)
    requires Inv(m) && !s.force && Backed(m, s.standing, open)
    ensures Sweep(m, s).Ok? && Backed(Sweep(m, s).value.0, s.standing, open)
    ensures Sweep(m, s).value.1 != Swept(0, 0, 0) ==> Backed(Sweep(m, s).value.0, s.standing, 0)
  {
    hide Sweep, Tokens;
    SweepLeavesReserve(m, s);
  }

  // ------------------------------------------------------------------------- resolution

  /** The waterfall: every tranche pays exactly its documented minimum, together they pay the
  whole loss, and no tranche is touched before the one above it is exhausted. */
  lemma {:induction false} ResolveSplitsLoss(m: Market, loss: nat, booked: bool)
    requires Inv(m)
    ensures var fee := Min(loss, m.pendingIf);
            var ins := Min(Min(loss - fee, m.vault - 1), m.maxInsurance - m.settledInsurance);
            var claw := Min(Min(loss - fee - ins, m.ammReceived), m.pendingProvision + FeeTokens(m));
            Resolve(m, loss, booked).Err? <==> loss > fee + ins + claw && m.long + m.short == 0
    ensures Resolve(m, loss, booked).Ok? ==>
              var (m', w) := Resolve(m, loss, booked).value;
              && Inv(m')
              && w.pendingFee == Min(loss, m.pendingIf)
              && w.insurance == Min(Min(loss - w.pendingFee, m.vault - 1), m.maxInsurance - m.settledInsurance)
              && w.untokenized + w.tokenized
                 == Min(Min(loss - w.pendingFee - w.insurance, m.ammReceived), m.pendingProvision + FeeTokens(m))
              && w.pendingFee + w.insurance + w.untokenized + w.tokenized + w.socialized == loss
              // each tranche only after the previous one
              && (w.insurance > 0 ==> m'.pendingIf == 0)
              && (w.untokenized + w.tokenized > 0 ==> m'.vault == 1 || m'.settledInsurance == m'.maxInsurance)
              && (w.tokenized > 0 ==> m'.pendingProvision == 0)
              && (w.socialized > 0 ==> m'.ammReceived == 0 || (m'.pendingProvision == 0 && FeeTokens(m') == 0))
              // and the books move by exactly that
              && m'.pendingIf == m.pendingIf - w.pendingFee
              && m'.vault == m.vault - w.insurance && m'.settledInsurance == m.settledInsurance + w.insurance
              && m'.ammReceived == m.ammReceived - w.untokenized - w.tokenized
              && m'.ammEquity == m.ammEquity - w.untokenized - w.tokenized
              && m'.unsettledFunding == m.unsettledFunding - w.socialized
              && m'.socialLoss == m.socialLoss + w.socialized
              && PnlTokens(m') >= PnlTokens(m)
              && m'.claims == (if booked then SatSub(m.claims, 1) else m.claims)
  {
    hide DrawInsurance, Clawback, Socialize, FeeTokens, PnlTokens;
    var (m1, fee) := DrawPending(m, loss);
    assert FeeTokens(m1) == FeeTokens(m) && PnlTokens(m1) == PnlTokens(m) by { SamePools(m, m1); }
    InsurancePays(m1, loss - fee);
    var (m2, ins) := DrawInsurance(m1, loss - fee).value;
    var rest := loss - fee - ins;
    ClawbackPays(m2, rest);
    var (m3, untok, tok) := Clawback(m2, rest).value;
    SocializeKeeps(m3, rest - untok - tok);
    if Resolve(m, loss, booked).Ok? {
      var m4 := Socialize(m3, rest - untok - tok).value;
      var m' := Resolve(m, loss, booked).value.0;
      SamePools(m4, m');
    }
  }

  lemma {:induction false} SamePools(m: Market, m': Market)
    requires m'.index == m.index && m'.pnlPool == m.pnlPool && m'.feePool == m.feePool
    ensures PnlTokens(m') == PnlTokens(m) && FeeTokens(m') == FeeTokens(m)
  {
  }

  lemma {:induction false} InsurancePays(m: Market, loss: nat)
    requires Inv(m)
    ensures DrawInsurance(m, loss).Ok?
    ensures var (m', x) := DrawInsurance(m, loss).value;
            && x == Min(Min(loss, m.vault - 1), m.maxInsurance - m.settledInsurance)
            && m' == m.(settledInsurance := m.settledInsurance + x, vault := m.vault - x,
                        pnlPool := m'.pnlPool, deposits := m'.deposits)
            && Inv(m') && PnlTokens(m') >= PnlTokens(m) && FeeTokens(m') == FeeTokens(m)
  {
    hide ToScaled;
    var x := DrawInsurance(m, loss).value.1;
    CreditAdds(m.pnlPool, x, m.index, PRECISION);
  }

  lemma {:induction false} ClawbackPays(m: Market, rest: nat)
    requires Inv(m)
    ensures Clawback(m, rest).Ok?
    ensures var (m', untok, tok) := Clawback(m, rest).value; var x := untok + tok;
            && x == Min(Min(rest, m.ammReceived), m.pendingProvision + FeeTokens(m))
            && untok <= m.pendingProvision
            && m' == m.(feePool := m'.feePool, pnlPool := m'.pnlPool, deposits := m'.deposits,
                        pendingProvision := m.pendingProvision - untok,
                        ammReceived := m.ammReceived - x, ammEquity := m.ammEquity - x)
            && Inv(m') && PnlTokens(m') >= PnlTokens(m)
            && (tok > 0 ==> m'.pendingProvision == 0)
            && (x < rest ==> m'.ammReceived == 0 || (m'.pendingProvision == 0 && FeeTokens(m') == 0))
            && (x == 0 ==> m'.feePool == m.feePool)
  {
    hide ClawTokenized, FeeTokens, PnlTokens;
    var budget := Min(rest, m.ammReceived);
    var (m1, untok) := ClawUntokenized(m, budget);
    SamePools(m, m1);
    ClawKeeps(m1, budget - untok);
  }

  lemma {:induction false} SocializeKeeps(m: Market, loss: nat)
    requires Inv(m)
    ensures Socialize(m, loss).Err? <==> loss > 0 && m.long + m.short == 0
    ensures Socialize(m, loss).Ok? ==>
              var m' := Socialize(m, loss).value;
              && m' == m.(cumLong := m'.cumLong, cumShort := m'.cumShort,
                          ammLong := m'.ammLong, ammShort := m'.ammShort,
                          unsettledFunding := m.unsettledFunding - loss, socialLoss := m.socialLoss + loss)
              && Inv(m') && PnlTokens(m') == PnlTokens(m) && FeeTokens(m') == FeeTokens(m)
  {
    hide AmmPayment, FundingLedger.SocialDelta;
    FundingLedger.AmmZero(m.long, 0 - m.short);
    if Socialize(m, loss).Ok? { SamePools(m, Socialize(m, loss).value); }
  }

  lemma {:induction false} ClawKeeps(m: Market, budget: nat)
    requires m.index > 0 && budget <= m.ammReceived && Pools(m) <= m.deposits
    ensures ClawTokenized(m, budget).Ok?
    ensures var (m', x) := ClawTokenized(m, budget).value;
            && x == Min(budget, FeeTokens(m))
            && m' == m.(feePool := m'.feePool, pnlPool := m'.pnlPool, deposits := m'.deposits,
                        ammReceived := m.ammReceived - x, ammEquity := m.ammEquity - x)
            && Pools(m') <= m'.deposits
            && PnlTokens(m') >= PnlTokens(m)
            && (x == FeeTokens(m) ==> FeeTokens(m') == 0)
            && (x == 0 ==> m' == m)
  {
    hide ToScaled;
    var x := Min(budget, FeeTokens(m));
    if x > 0 {
      DebitKeeps(m.feePool, x, m.index, PRECISION);
      CreditAdds(m.pnlPool, x, m.index, PRECISION);
      assert Tokens(0, m.index, PRECISION) == 0 by { NoTokens(m.index); }
    }
  }

  lemma {:induction false} NoTokens(index: nat)
    ensures Tokens(0, index, PRECISION) == 0
  {
    assert 0 * index == 0;
  }

  lemma {:induction false} ResolveKeepsBacking(m: Market, loss: nat, booked: bool, standing: nat, open: nat)
    requires Inv(m) && Backed(m, standing, open) && Resolve(m, loss, booked).Ok?
    ensures Backed(Resolve(m, loss, booked).value.0, standing, open)
  {
    hide Resolve, Tokens;
    ResolveSplitsLoss(m, loss, booked);
    if loss <= m.pendingIf { FeePoolUntouched(m, loss, booked); }
  }

  lemma {:induction false} FeePoolUntouched(m: Market, loss: nat, booked: bool)
    requires Inv(m) && loss <= m.pendingIf && Resolve(m, loss, booked).Ok?
    ensures var m' := Resolve(m, loss, booked).value.0; m'.feePool == m.feePool && m'.index == m.index
  {
    hide ToScaled, Clawback, AmmPayment, FundingLedger.SocialDelta;
    var m1 := DrawPending(m, loss).0;
    var m2 := DrawInsurance(m1, 0).value.0;
    ClawbackPays(m2, 0);
  }

  /** The socialized part really is charged to the survivors: whoever they are, their funding
  payments recover it to within one unit per position from below and one base unit's worth
  from above; and the AMM collects nothing on the bump. */
  lemma {:induction false} ResolveChargesSurvivors(m: Market, loss: nat, booked: bool, ps: seq<FundingLedger.Position>)
    requires Inv(m) && Resolve(m, loss, booked).Ok?
    requires FundingLedger.Longs(ps) == m.long && FundingLedger.Shorts(ps) == 0 - m.short
    ensures var (m', w) := Resolve(m, loss, booked).value;
            var bump := m'.cumLong - m.cumLong;
            && m'.cumShort - m.cumShort == -bump
            && (w.socialized == 0 ==> bump == 0)
            && (w.socialized > 0 ==>
                  var paid := FundingLedger.Levy(ps, bump);
                  paid > w.socialized - |ps| && BASE_UNIT * (paid - w.socialized) < m.long + m.short)
            && AmmPayment(m'.long, 0 - m'.short, m'.cumLong - m'.ammLong, m'.cumShort - m'.ammShort) == 0
  {
    hide Resolve, AmmPayment, FundingLedger.SocialDelta, FundingLedger.Levy;
    ResolveSplitsLoss(m, loss, booked);
    SocialBump(m, loss, booked);
    FundingLedger.AmmZero(m.long, 0 - m.short);
    var w := Resolve(m, loss, booked).value.1;
    if w.socialized > 0 {
      FundingLedger.LevyCoversLoss(ps, w.socialized);
    }
  }

  lemma {:induction false} SocialBump(m: Market, loss: nat, booked: bool)
    requires Inv(m) && Resolve(m, loss, booked).Ok?
    ensures var (m', w) := Resolve(m, loss, booked).value;
            && m'.long == m.long && m'.short == m.short
            && (w.socialized == 0 ==> m'.cumLong == m.cumLong && m'.cumShort == m.cumShort)
            && (w.socialized > 0 ==>
                  m.long + m.short > 0
                  && m'.cumLong - m.cumLong == FundingLedger.SocialDelta(w.socialized, m.long + m.short)
                  && m.cumShort - m'.cumShort == m'.cumLong - m.cumLong)
  {
    hide ToScaled, Clawback, AmmPayment, FundingLedger.SocialDelta;
    var (m1, fee) := DrawPending(m, loss);
    var (m2, ins) := DrawInsurance(m1, loss - fee).value;
    assert Inv(m2);
    ClawbackPays(m2, loss - fee - ins);
  }

  // ---------------------------------------------------------------------- pnl deficits

  /** A deficit draw succeeds exactly when the AMM is under water, the pool falls short of the users'
  net pnl, there is an excess, and neither cap nor vault is used up; it then pays the least of the
  four into the pnl pool, and the books move by exactly that. */
  lemma {:induction false} DeficitDraws(m: Market, d: DeficitInputs)
    requires Inv(m)
    ensures ResolveDeficit(m, d).Ok? <==>
              && m.ammEquity < 0 && PnlTokens(m) < d.netUserPnl && d.excess > 0
              && m.periodDrawn < m.periodCap && m.settledInsurance < m.maxInsurance && m.vault >= 2
    ensures ResolveDeficit(m, d).Ok? ==>
              var (m', x) := ResolveDeficit(m, d).value;
              && 0 < x <= d.excess && x <= m.periodCap - m.periodDrawn && x <= m.maxInsurance - m.settledInsurance
              && x < m.vault
              && (|| x == d.excess || m'.periodDrawn == m.periodCap || m'.settledInsurance == m.maxInsurance
                  || m'.vault == 1)
              && m' == m.(ammEquity := m.ammEquity + x, periodDrawn := m.periodDrawn + x,
                          settledInsurance := m.settledInsurance + x, vault := m.vault - x,
                          pnlPool := m'.pnlPool, deposits := m'.deposits)
              && Inv(m') && PnlTokens(m) <= PnlTokens(m') <= PnlTokens(m) + x && FeeTokens(m') == FeeTokens(m)
  {
    hide Tokens, ToScaled;
    if ResolveDeficit(m, d).Ok? {
      var (m', x) := ResolveDeficit(m, d).value;
      CreditAdds(m.pnlPool, x, m.index, PRECISION);
    }
  }

  // ------------------------------------------------------------------------------- runs

  /** `OpenPeriod` is the reset of the period's counter, which the program makes at the start of a
  sweep or a deficit draw that finds a new revenue-settle period. */
  datatype Event =
    | SweepFees(inputs: SweepInputs)
    | ResolveBankruptcy(loss: nat, booked: bool)
    | DrawDeficit(deficit: DeficitInputs)
    | OpenPeriod
    | AccrueInterest(growth: nat)
    | PnlInflow(tokens: nat)
    | PnlOutflow(tokens: nat)
    | LatchClaim
    | FundVault(tokens: nat)
    | DrainVault(tokens: nat)
    | AccrueFees(protocol: nat, insurance: nat, amm: nat)

  /** Failed instructions leave the market alone. Stakers fund and drain the vault, never to zero. */
  function Step(m: Market, e: Event): (r: Market)
    requires m.index > 0
    ensures r.index > 0
  {
    match e
    case SweepFees(s) => (match Sweep(m, s) case Ok(p) => if p.0.index > 0 then p.0 else m case Err(_) => m)
    case ResolveBankruptcy(loss, booked) =>
      (match Resolve(m, loss, booked) case Ok(p) => if p.0.index > 0 then p.0 else m case Err(_) => m)
    case DrawDeficit(d) =>
      (match ResolveDeficit(m, d) case Ok(p) => p.0 case Err(_) => m)
    case OpenPeriod => m.(periodDrawn := 0)
    case AccrueInterest(g) => m.(index := m.index + g)
    case PnlInflow(x) =>
      var credit := ToScaled(x, m.index, PRECISION);
      m.(pnlPool := m.pnlPool + credit, deposits := m.deposits + credit)
    case PnlOutflow(x) => (match FromPnl(m, x) case Ok(p) => p.0 case Err(_) => m)
    case LatchClaim => m.(claims := m.claims + 1)
    case FundVault(x) => m.(vault := m.vault + x)
    case DrainVault(x) => if x < m.vault then m.(vault := m.vault - x) else m
    case AccrueFees(p, i, a) =>
      m.(pendingProtocol := m.pendingProtocol + p, pendingIf := m.pendingIf + i,
         ammReceived := m.ammReceived + a, pendingProvision := m.pendingProvision + a,
         ammEquity := m.ammEquity + a)
  }

  function Run(m: Market, es: seq<Event>): (r: Market)
    requires m.index > 0
    decreases |es|
  {
    if es == [] then m else Run(Step(m, es[0]), es[1..])
  }

  lemma {:induction false} StepKeepsInv(m: Market, e: Event)
    requires Inv(m)
    ensures Inv(Step(m, e)) && Step(m, e).maxInsurance == m.maxInsurance && Step(m, e).periodCap == m.periodCap
  {
    hide Sweep, Resolve, ResolveDeficit, ToScaled;
    match e
    case SweepFees(s) => SweepLeavesReserve(m, s);
    case ResolveBankruptcy(loss, booked) =>
      ResolveSplitsLoss(m, loss, booked);
      if Resolve(m, loss, booked).Ok? { CapFixed(m, loss, booked); }
    case DrawDeficit(d) => DeficitDraws(m, d);
    case PnlOutflow(x) => OutflowKeeps(m, x);
    case _ =>
  }

  lemma {:induction false} CapFixed(m: Market, loss: nat, booked: bool)
    requires Inv(m) && Resolve(m, loss, booked).Ok?
    ensures var m' := Resolve(m, loss, booked).value.0;
            m'.maxInsurance == m.maxInsurance && m'.periodCap == m.periodCap && m'.periodDrawn == m.periodDrawn
  {
    hide ToScaled, Clawback, AmmPayment, FundingLedger.SocialDelta;
    var (m1, fee) := DrawPending(m, loss);
    var (m2, ins) := DrawInsurance(m1, loss - fee).value;
    assert Inv(m2);
    ClawbackPays(m2, loss - fee - ins);
  }

  /** In every run of sweeps, resolutions, accruals, latches and inflows: insurance drawn never
  passes its lifetime maximum, the vault is never emptied, the clawback cap covers the
  untokenized provision, and the pools stay covered by deposits. */
  lemma {:induction false} RunKeepsInv(m: Market, es: seq<Event>)
    requires Inv(m)
    ensures Inv(Run(m, es)) && Run(m, es).maxInsurance == m.maxInsurance && Run(m, es).periodCap == m.periodCap
    decreases |es|
  {
    hide Step;
    if es == [] {
    } else {
      StepKeepsInv(m, es[0]);
      RunKeepsInv(Step(m, es[0]), es[1..]);
    }
  }

  /** What a run's resolutions wrote off and where it went, what deficits drew, and what stakers
  moved. */
  datatype Tally = Tally(losses: nat, pendingFee: nat, insurance: nat, provision: nat, socialized: nat,
                         deficits: nat, funded: nat, drained: nat)

  function Add(a: Tally, b: Tally): (r: Tally)
  {
    Tally(a.losses + b.losses, a.pendingFee + b.pendingFee, a.insurance + b.insurance, a.provision + b.provision,
          a.socialized + b.socialized, a.deficits + b.deficits, a.funded + b.funded, a.drained + b.drained)
  }

  function Nothing(): (r: Tally)
  {
    Tally(0, 0, 0, 0, 0, 0, 0, 0)
  }

  function StepTally(m: Market, e: Event): (r: Tally)
    requires m.index > 0
  {
    match e
    case ResolveBankruptcy(loss, booked) =>
      (match Resolve(m, loss, booked)
       case Ok(p) =>
         var w := p.1;
         Tally(loss, w.pendingFee, w.insurance, w.untokenized + w.tokenized, w.socialized, 0, 0, 0)
       case Err(_) => Nothing())
    case DrawDeficit(d) =>
      (match ResolveDeficit(m, d) case Ok(p) => Nothing().(deficits := p.1) case Err(_) => Nothing())
    case FundVault(x) => Nothing().(funded := x)
    case DrainVault(x) => Nothing().(drained := if x < m.vault then x else 0)
    case _ => Nothing()
  }

  function RunTally(m: Market, es: seq<Event>): (r: Tally)
    requires m.index > 0
    decreases |es|
  {
    if es == [] then Nothing() else Add(StepTally(m, es[0]), RunTally(Step(m, es[0]), es[1..]))
  }

  /** The books of `r` follow from those of `m` and the tally. */
  predicate Accounts(m: Market, r: Market, t: Tally)
  {
    && t.losses == t.pendingFee + t.insurance + t.provision + t.socialized
    && r.settledInsurance == m.settledInsurance + t.insurance + t.deficits
    && r.vault == m.vault + t.funded - t.drained - t.insurance - t.deficits
    && r.socialLoss == m.socialLoss + t.socialized
    && r.unsettledFunding == m.unsettledFunding - t.socialized
  }

  lemma {:induction false} StepAccounts(m: Market, e: Event)
    requires Inv(m)
    ensures Accounts(m, Step(m, e), StepTally(m, e))
  {
    hide Sweep, Resolve, ResolveDeficit, ToScaled;
    match e
    case SweepFees(s) => SweepLeavesReserve(m, s);
    case ResolveBankruptcy(loss, booked) => ResolveSplitsLoss(m, loss, booked);
    case DrawDeficit(d) => DeficitDraws(m, d);
    case PnlOutflow(x) => OutflowKeeps(m, x);
    case _ =>
  }

  /** Over every run the losses written off are, to the unit, what the four tranches paid; the
  vault and the lifetime counter moved by exactly the insurance part and the deficit draws, which
  together stay within the lifetime maximum; and the vault is never emptied. */
  lemma {:induction false} RunAccountsForLosses(m: Market, es: seq<Event>)
    requires Inv(m)
    ensures Accounts(m, Run(m, es), RunTally(m, es))
    ensures m.settledInsurance + RunTally(m, es).insurance + RunTally(m, es).deficits <= m.maxInsurance
    ensures Run(m, es).vault >= 1
    decreases |es|
  {
    hide Step, StepTally;
    RunKeepsInv(m, es);
    if es == [] {
    } else {
      StepKeepsInv(m, es[0]);
      StepAccounts(m, es[0]);
      RunAccountsForLosses(Step(m, es[0]), es[1..]);
    }
  }

  lemma {:induction false} StepCountsDeficits(m: Market, e: Event)
    requires Inv(m) && !e.OpenPeriod?
    ensures Step(m, e).periodDrawn == m.periodDrawn + StepTally(m, e).deficits
  {
    hide Sweep, Resolve, ResolveDeficit, ToScaled;
    match e
    case SweepFees(s) => SweepLeavesReserve(m, s);
    case ResolveBankruptcy(loss, booked) =>
      ResolveSplitsLoss(m, loss, booked);
      if Resolve(m, loss, booked).Ok? { CapFixed(m, loss, booked); }
    case DrawDeficit(d) => DeficitDraws(m, d);
    case PnlOutflow(x) => OutflowKeeps(m, x);
    case _ =>
  }

  /** Within one revenue-settle period deficits draw no more than the period's cap, whatever else
  happens in between. */
  lemma {:induction false} PeriodDrawsWithinCap(m: Market, es: seq<Event>)
    requires Inv(m) && forall e :: e in es ==> !e.OpenPeriod?
    ensures Run(m, es).periodDrawn == m.periodDrawn + RunTally(m, es).deficits <= m.periodCap
    decreases |es|
  {
    hide Step, StepTally;
    RunKeepsInv(m, es);
    if es == [] {
    } else {
      StepKeepsInv(m, es[0]);
      StepCountsDeficits(m, es[0]);
      PeriodDrawsWithinCap(Step(m, es[0]), es[1..]);
    }
  }

  /** Sweeps are made at the standing floor and not forced; everything else is allowed. */
  predicate AtFloor(e: Event, standing: nat)
  {
    e.SweepFees? ==> !e.inputs.force && e.inputs.standing == standing
  }

  /** Insurance fees are counted when a trade is filled, ahead of their tokens, and users' pnl is
  settled out of the pnl pool without regard to the tranche: this much may be left open. */
  function LeftOpen(e: Event): (r: nat)
  {
    match e
    case AccrueFees(_, i, _) => i
    case PnlOutflow(x) => x
    case _ => 0
  }

  function AllLeftOpen(es: seq<Event>): (r: nat)
  {
    if es == [] then 0 else LeftOpen(es[0]) + AllLeftOpen(es[1..])
  }

  lemma {:induction false} StepKeepsBacking(m: Market, e: Event, standing: nat, open: nat)
    requires Inv(m) && Backed(m, standing, open) && AtFloor(e, standing)
    ensures Backed(Step(m, e), standing, open + LeftOpen(e))
  {
    hide Sweep, Resolve, ResolveDeficit, ToScaled, Tokens, FromPnl;
    match e
    case DrawDeficit(d) => DeficitDraws(m, d);
    case SweepFees(s) =>
      SweepKeepsBacking(m, s, open);
      SweepLeavesReserve(m, s);
    case ResolveBankruptcy(loss, booked) =>
      ResolveSplitsLoss(m, loss, booked);
      if Resolve(m, loss, booked).Ok? { ResolveKeepsBacking(m, loss, booked, standing, open); }
    case AccrueInterest(g) =>
      TokensMono(m.pnlPool, m.pnlPool, m.index, m.index + g, PRECISION);
      TokensMono(m.feePool, m.feePool, m.index, m.index + g, PRECISION);
    case PnlInflow(x) => CreditAdds(m.pnlPool, x, m.index, PRECISION);
    case PnlOutflow(x) => OutflowKeeps(m, x);
    case _ =>
  }

  lemma {:induction false} OutflowKeeps(m: Market, x: nat)
    requires Inv(m)
    ensures FromPnl(m, x).Ok? ==>
              var m' := FromPnl(m, x).value.0;
              && m' == m.(pnlPool := m'.pnlPool, deposits := m'.deposits) && Inv(m')
              && PnlTokens(m') >= PnlTokens(m) - x
  {
    if x <= PnlTokens(m) {
      FromPnlKeeps(m, x);
      hide FromPnl, Tokens;
    }
  }

  /** Over every interleaving at a fixed floor, fee accruals and users' settlements included, the
  first-loss tranche is backed by tokens but for the fees accrued and the pnl paid out since it
  last was; sweeps and resolutions add nothing to that. */
  lemma {:induction false} RunKeepsBacking(m: Market, es: seq<Event>, standing: nat, open: nat)
    requires Inv(m) && Backed(m, standing, open)
    requires forall e :: e in es ==> AtFloor(e, standing)
    ensures Backed(Run(m, es), standing, open + AllLeftOpen(es))
    decreases |es|
  {
    hide Step, Backed, LeftOpen;
    if es == [] {
    } else {
      StepKeepsInv(m, es[0]);
      StepKeepsBacking(m, es[0], standing, open);
      RunKeepsBacking(Step(m, es[0]), es[1..], standing, open + LeftOpen(es[0]));
    }
  }

  /** Tokens of the pnl pool after a settlement of `x`, which fails if the pool is short of it. */
  function PnlAfter(m: Market, x: nat): (r: nat)
    requires m.index > 0
  {
    match Debit(m.pnlPool, x, m.index, PRECISION)
    case Some(pool) => Tokens(pool, m.index, PRECISION)
    case None => PnlTokens(m)
  }

  /** A backed tranche becomes unbacked at exactly two kinds of event: fees counted beyond the
  tokens there are, and a settlement that takes the pnl pool below what the tranche needs. */
  lemma {:induction false} UnbackedExactlyWhen(m: Market, e: Event, standing: nat)
    requires Inv(m) && Backed(m, standing, 0) && AtFloor(e, standing)
    ensures !Backed(Step(m, e), standing, 0) <==>
              || (e.AccrueFees? && PnlTokens(m) + FeeTokens(m) < Min(m.pendingIf + e.insurance, standing))
              || (e.PnlOutflow? && PnlAfter(m, e.tokens) + FeeTokens(m) < Min(m.pendingIf, standing))
  {
    if e.AccrueFees? {
    } else if e.PnlOutflow? {
      OutflowLeaves(m, e.tokens);
    } else {
      hide Step, Backed;
      StepKeepsBacking(m, e, standing, 0);
    }
  }

  lemma {:induction false} OutflowLeaves(m: Market, x: nat)
    requires Inv(m)
    ensures var m' := Step(m, PnlOutflow(x));
            PnlTokens(m') == PnlAfter(m, x) && FeeTokens(m') == FeeTokens(m) && m'.pendingIf == m.pendingIf
  {
    hide Tokens, ToScaled;
  }

  /** One unit of fees counted on an empty market unbacks the tranche. */
  lemma {:induction false} AccrualUnbacks()
    ensures var m := Market(10_000_000_000, 0, 0, 0, 0, 0, 0, 0, 0, 0, 0, 0, 1, 0, 0, 0, 0, 0, 0, 0, 0, 0, 0, 0, 0);
            Inv(m) && Backed(m, 5, 0) && !Backed(Step(m, AccrueFees(0, 1, 0)), 5, 0)
  {
  }

  /** And one unit of pnl paid out of a pool that held just the tranche does. */
  lemma {:induction false} SettlementUnbacks()
    ensures var m := Market(10_000_000_000, 5000, 0, 0, 0, 5000, 0, 5, 0, 0, 0, 0, 1, 0, 0, 0, 0, 0, 0, 0, 0, 0, 0,
                            0, 0);
            Inv(m) && Backed(m, 5, 0) && !Backed(Step(m, PnlOutflow(1)), 5, 0)
  {
    var m := Market(10_000_000_000, 5000, 0, 0, 0, 5000, 0, 5, 0, 0, 0, 0, 1, 0, 0, 0, 0, 0, 0, 0, 0, 0, 0, 0, 0);
    assert PnlTokens(m) == 5 && ToScaled(1, m.index, PRECISION) == 1000;
    assert Tokens(4000, m.index, PRECISION) == 4 && PnlAfter(m, 1) == 4;
    UnbackedExactlyWhen(m, PnlOutflow(1), 5);
  }
}
