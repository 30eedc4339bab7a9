/** The perp market as the program mutates it: the sweep and the resolution update pools and
counters one after another, inside a transaction that is rolled back on failure. */
module MarketAccount {
  import opened Arith
  import opened SpotBalance
  import opened Funding
  import opened PerpMarket
  import opened PerpMarketRuns
  import FundingLedger
  import opened Wrappers

  /** The account record is a struct that the instructions update field by field. */
  class Account {
    var m: Market

    constructor (initial: Market)
      ensures m == initial
    {
      m := initial;
    }

    /** The pnl-pool half of a transfer: returns the scaled amount the other pool gains. */
    method TakeFromPnl(tokens: nat) returns (r: Result<nat, Error>)
      requires m.index > 0
      modifies this
      ensures match FromPnl(old(m), tokens)
              case Ok(p) => r == Ok(p.1) && m == p.0
              case Err(e) => r == Err(e) && m == old(m)
    {
      hide ToScaled, Debit;
      var left := Debit(m.pnlPool, tokens, m.index, PRECISION);
      if left.None? || m.deposits < m.pnlPool {
        return Err(PoolShort);
      }
      DebitKeeps(m.pnlPool, tokens, m.index, PRECISION);
      var credit := ToScaled(tokens, m.index, PRECISION);
      m := m.(deposits := m.deposits - (m.pnlPool - left.value));
      m := m.(pnlPool := left.value);
      m := m.(deposits := m.deposits + credit);
      return Ok(credit);
    }

    /** Step 1 of the sweep: the protocol's withdrawable cut. */
    method DrainProtocol(x: nat) returns (r: Result<(), Error>)
      requires m.index > 0 && x <= m.pendingProtocol
      modifies this
      ensures match SweepProtocol(old(m), x)
              case Ok(m') => r == Ok(()) && m == m'
              case Err(e) => r == Err(e)
    {
      hide FromPnl;
      if x > 0 {
        var moved := TakeFromPnl(x);
        if moved.Err? {
          return Err(moved.error);
        }
        FromPnlFields(old(m), x);
        m := m.(protocolPool := m.protocolPool + moved.value);
        m := m.(pendingProtocol := m.pendingProtocol - x);
      }
      return Ok(());
    }

    /** Step 2: the insurance cut, to the revenue pool. */
    method DrainInsurance(x: nat) returns (r: Result<(), Error>)
      requires m.index > 0 && x <= m.pendingIf
      modifies this
      ensures match SweepInsurance(old(m), x)
              case Ok(m') => r == Ok(()) && m == m'
              case Err(e) => r == Err(e)
    {
      hide FromPnl;
      if x > 0 {
        var moved := TakeFromPnl(x);
        if moved.Err? {
          return Err(moved.error);
        }
        FromPnlFields(old(m), x);
        m := m.(revenuePool := m.revenuePool + moved.value);
        m := m.(pendingIf := m.pendingIf - x);
      }
      return Ok(());
    }

    /** Step 3: tokenizing the AMM's fee provision. */
    method DrainProvision(x: nat) returns (r: Result<(), Error>)
      requires m.index > 0 && x <= m.pendingProvision
      modifies this
      ensures match SweepProvision(old(m), x)
              case Ok(m') => r == Ok(()) && m == m'
              case Err(e) => r == Err(e)
    {
      hide FromPnl;
      if x > 0 {
        var moved := TakeFromPnl(x);
        if moved.Err? {
          return Err(moved.error);
        }
        FromPnlFields(old(m), x);
        m := m.(feePool := m.feePool + moved.value);
        m := m.(pendingProvision := m.pendingProvision - x);
      }
      return Ok(());
    }

    /** `sweep_market_fees` */
    method SweepFees(s: SweepInputs) returns (r: Result<Swept, Error>)
      requires m.index > 0
      modifies this
      ensures match Sweep(old(m), s)
              case Ok(p) => r == Ok(p.1) && m == p.0
              case Err(e) => r == Err(e) && m == old(m)
    {
      hide SweepProtocol, SweepInsurance, SweepProvision, PnlTokens, Reserved, Floor;
      var entry := m;
      if (!s.force && s.paused) || (m.pendingProtocol == 0 && m.pendingIf == 0 && m.pendingProvision == 0) {
        return Ok(Swept(0, 0, 0));
      }
      var available := SatSub(PnlTokens(m), Reserved(m, s));
      var protocol := Min(m.pendingProtocol, available);
      var done := DrainProtocol(protocol);
      if done.Err? {
        m := entry;
        return Err(done.error);
      }
      DrainsKeepCounters(entry, protocol);

      available := SatSub(available - protocol, s.buffer);
      var insurance := Min(SatSub(m.pendingIf, Floor(entry, s.standing, s.force)), available);
      ghost var mid := m;
      done := DrainInsurance(insurance);
      if done.Err? {
        m := entry;
        return Err(done.error);
      }
      InsuranceKeepsProvision(mid, insurance);

      available := available - insurance;
      var provision := Min(m.pendingProvision, available);
      done := DrainProvision(provision);
      if done.Err? {
        m := entry;
        return Err(done.error);
      }
      return Ok(Swept(insurance, protocol, provision));
    }

    /** Tranche 2: the shared vault pays into the pnl pool. */
    method PayFromVault(loss: nat) returns (r: Result<nat, Error>)
      requires m.index > 0
      modifies this
      ensures match DrawInsurance(old(m), loss)
              case Ok(p) => r == Ok(p.1) && m == p.0
              case Err(e) => r == Err(e)
      ensures m.index > 0 && (r.Ok? ==> r.value <= loss)
    {
      hide ToScaled;
      if m.settledInsurance > m.maxInsurance {
        return Err(InsuranceOverdrawn);
      }
      var x := Min(Min(loss, SatSub(m.vault, 1)), m.maxInsurance - m.settledInsurance);
      m := m.(settledInsurance := m.settledInsurance + x);
      var credit := ToScaled(x, m.index, PRECISION);
      m := m.(pnlPool := m.pnlPool + credit);
      m := m.(deposits := m.deposits + credit);
      m := m.(vault := m.vault - x);
      return Ok(x);
    }

    /** Tranche 3: the AMM's fee provision, counters first, then fee-pool tokens. */
    method ClawBackProvision(rest: nat) returns (r: Result<(nat, nat), Error>)
      requires m.index > 0
      modifies this
      ensures match Clawback(old(m), rest)
              case Ok(p) => r == Ok((p.1, p.2)) && m == p.0
              case Err(e) => r == Err(e)
      ensures r.Ok? ==> r.value.0 + r.value.1 <= rest
    {
      hide ToScaled, Debit, Tokens;
      var budget := Min(rest, m.ammReceived);
      var untokenized := Min(budget, m.pendingProvision);
      m := m.(pendingProvision := m.pendingProvision - untokenized);
      m := m.(ammReceived := m.ammReceived - untokenized);
      m := m.(ammEquity := m.ammEquity - untokenized);
      var tokenized := Min(budget - untokenized, FeeTokens(m));
      if tokenized > 0 {
        var left := Debit(m.feePool, tokenized, m.index, PRECISION);
        if left.None? || m.deposits < m.feePool {
          return Err(PoolShort);
        }
        DebitKeeps(m.feePool, tokenized, m.index, PRECISION);
        var credit := ToScaled(tokenized, m.index, PRECISION);
        m := m.(deposits := m.deposits - (m.feePool - left.value));
        m := m.(feePool := left.value);
        m := m.(pnlPool := m.pnlPool + credit);
        m := m.(deposits := m.deposits + credit);
        m := m.(ammReceived := m.ammReceived - tokenized);
        m := m.(ammEquity := m.ammEquity - tokenized);
      }
      return Ok((untokenized, tokenized));
    }

    /** Tranche 4: surviving positions, through the funding rates. */
    method SocializeLoss(loss: nat) returns (r: Result<(), Error>)
      modifies this
      ensures match Socialize(old(m), loss)
              case Ok(m') => r == Ok(()) && m == m'
              case Err(e) => r == Err(e)
    {
      hide AmmPayment, FundingLedger.SocialDelta;
      if loss > 0 {
        if m.long + m.short == 0 {
          return Err(NoOpenInterest);
        }
        var delta := FundingLedger.SocialDelta(loss, m.long + m.short);
        m := m.(socialLoss := m.socialLoss + loss);
        var paid := AmmPayment(m.long, 0 - m.short, m.cumLong - m.ammLong, m.cumShort - m.ammShort);
        m := m.(ammEquity := m.ammEquity + paid);
        m := m.(cumLong := m.cumLong + delta);
        m := m.(cumShort := m.cumShort - delta);
        m := m.(unsettledFunding := m.unsettledFunding - loss);
        m := m.(ammLong := m.cumLong);
        m := m.(ammShort := m.cumShort);
      }
      return Ok(());
    }

    /** `resolve_perp_bankruptcy`, from the loss on. */
    method ResolveBankruptcy(loss: nat, booked: bool) returns (r: Result<Waterfall, Error>)
      requires m.index > 0
      modifies this
      ensures match Resolve(old(m), loss, booked)
              case Ok(p) => r == Ok(p.1) && m == p.0
              case Err(e) => r == Err(e) && m == old(m)
    {
      hide DrawInsurance, Clawback, Socialize;
      var entry := m;
      var pending := Min(loss, m.pendingIf);
      m := m.(pendingIf := m.pendingIf - pending);

      var insurance := PayFromVault(loss - pending);
      if insurance.Err? {
        m := entry;
        return Err(insurance.error);
      }
      var rest := loss - pending - insurance.value;
      var clawed := ClawBackProvision(rest);
      if clawed.Err? {
        m := entry;
        return Err(clawed.error);
      }
      var (untokenized, tokenized) := clawed.value;
      var social := rest - untokenized - tokenized;
      var shared := SocializeLoss(social);
      if shared.Err? {
        m := entry;
        return Err(shared.error);
      }
      if booked {
        m := m.(claims := SatSub(m.claims, 1));
      }
      return Ok(Waterfall(pending, insurance.value, untokenized, tokenized, social));
    }

    /** `resolve_perp_pnl_deficit` */
    method DrawForDeficit(d: DeficitInputs) returns (r: Result<nat, Error>)
      requires m.index > 0
      modifies this
      ensures match ResolveDeficit(old(m), d)
              case Ok(p) => r == Ok(p.1) && m == p.0
              case Err(e) => r == Err(e) && m == old(m)
    {
      hide ToScaled, Tokens;
      if m.ammEquity >= 0 {
        return Err(NotUnderwater);
      }
      if PnlTokens(m) >= d.netUserPnl {
        return Err(PoolSufficient);
      }
      if d.excess <= 0 {
        return Err(BelowThreshold);
      }
      if m.periodDrawn >= m.periodCap {
        return Err(PeriodCapReached);
      }
      if m.settledInsurance >= m.maxInsurance {
        return Err(InsuranceOverdrawn);
      }
      var withdraw := Min(d.excess, m.periodCap - m.periodDrawn);
      withdraw := Min(withdraw, m.maxInsurance - m.settledInsurance);
      withdraw := Min(withdraw, SatSub(m.vault, 1));
      if withdraw == 0 {
        return Err(VaultShort);
      }
      m := m.(ammEquity := m.ammEquity + withdraw);
      m := m.(periodDrawn := m.periodDrawn + withdraw);
      m := m.(settledInsurance := m.settledInsurance + withdraw);
      var credit := ToScaled(withdraw, m.index, PRECISION);
      m := m.(pnlPool := m.pnlPool + credit, deposits := m.deposits + credit);
      m := m.(vault := m.vault - withdraw);
      return Ok(withdraw);
    }

    /** One event, as the program handles it: what every run keeps is kept. */
    method Apply(e: Event)
      requires Inv(m)
      modifies this
      ensures m == Step(old(m), e) && Inv(m)
    {
      hide Sweep, Resolve, ResolveDeficit, ToScaled, FromPnl;
      StepKeepsInv(m, e);
      match e
      case SweepFees(s) =>
        SweepLeavesReserve(m, s);
        var _ := SweepFees(s);
      case ResolveBankruptcy(loss, booked) =>
        ResolveSplitsLoss(m, loss, booked);
        var _ := ResolveBankruptcy(loss, booked);
      case DrawDeficit(d) =>
        var _ := DrawForDeficit(d);
      case OpenPeriod => m := m.(periodDrawn := 0);
      case AccrueInterest(growth) => m := m.(index := m.index + growth);
      case PnlInflow(x) =>
        var credit := ToScaled(x, m.index, PRECISION);
        m := m.(pnlPool := m.pnlPool + credit, deposits := m.deposits + credit);
      case PnlOutflow(x) => var _ := TakeFromPnl(x);
      case LatchClaim => m := m.(claims := m.claims + 1);
      case FundVault(x) => m := m.(vault := m.vault + x);
      case DrainVault(x) =>
        if x < m.vault {
          m := m.(vault := m.vault - x);
        }
      case AccrueFees(p, i, a) =>
        m := m.(pendingProtocol := m.pendingProtocol + p, pendingIf := m.pendingIf + i);
        m := m.(ammReceived := m.ammReceived + a, pendingProvision := m.pendingProvision + a);
        m := m.(ammEquity := m.ammEquity + a);
    }

    method ApplyAll(es: seq<Event>)
      requires Inv(m)
      modifies this
      ensures m == Run(old(m), es) && Inv(m)
    {
      hide Step, Run;
      assert es[0..] == es;
      for i := 0 to |es|
        invariant Inv(m) && Run(old(m), es) == Run(m, es[i..])
      {
        RunUnfold(m, es, i);
        Apply(es[i]);
      }
      RunNothing(m, es);
    }

    /** Any sequence of instructions, failed ones included: the account ends where the run of the
    model ends; the losses written off are what the tranches paid; and at a fixed floor the
    first-loss tranche is backed but for what accruals and settlements left open. */
    method Replay(es: seq<Event>, standing: nat)
      requires Inv(m) && Backed(m, standing, 0) && forall e :: e in es ==> AtFloor(e, standing)
      modifies this
      ensures m == Run(old(m), es) && Inv(m)
      ensures Accounts(old(m), m, RunTally(old(m), es))
      ensures Backed(m, standing, AllLeftOpen(es))
    {
      hide Run, RunTally, Backed, Accounts, AllLeftOpen;
      RunAccountsForLosses(m, es);
      RunKeepsBacking(m, es, standing, 0);
      ApplyAll(es);
    }
  }

  lemma {:induction false} RunUnfold(m: Market, es: seq<Event>, i: nat)
    requires m.index > 0 && i < |es|
    ensures Run(m, es[i..]) == Run(Step(m, es[i]), es[i + 1..])
  {
    hide Step;
    assert es[i..][1..] == es[i + 1..];
  }

  lemma {:induction false} RunNothing(m: Market, es: seq<Event>)
    requires m.index > 0
    ensures Run(m, es[|es|..]) == m
  {
  }

  lemma {:induction false} DrainsKeepCounters(m: Market, x: nat)
    requires m.index > 0 && x <= m.pendingProtocol && SweepProtocol(m, x).Ok?
    ensures var m' := SweepProtocol(m, x).value;
            m'.index == m.index && m'.pendingIf == m.pendingIf && m'.pendingProvision == m.pendingProvision
  {
    hide FromPnl;
    if x > 0 { FromPnlFields(m, x); }
  }

  lemma {:induction false} InsuranceKeepsProvision(m: Market, x: nat)
    requires m.index > 0 && SweepInsurance(m, x).Ok?
    ensures var m' := SweepInsurance(m, x).value;
            m'.index == m.index && m'.pendingProvision == m.pendingProvision
  {
    hide FromPnl;
    if x > 0 { FromPnlFields(m, x); }
  }

  lemma {:induction false} FromPnlFields(m: Market, x: nat)
    requires m.index > 0 && FromPnl(m, x).Ok?
    ensures var m' := FromPnl(m, x).value.0; m' == m.(pnlPool := m'.pnlPool, deposits := m'.deposits)
  {
  }
}
