/** A perp market's pools and fee counters: the permissionless fee sweep and the bankruptcy
waterfall that draws on what the sweep must leave behind. */
module PerpMarket {
  import opened Arith
  import opened SpotBalance
  import opened Funding
  import FundingLedger
  import opened Wrappers

  /** Scaled-balance precision of the quote market (10^(19 - 6)). */
  const PRECISION: nat := 10_000_000_000_000

  datatype Error =
    | PoolShort
    | InsuranceOverdrawn
    | NoOpenInterest
    | VaultShort
    | NotUnderwater
    | PoolSufficient
    | BelowThreshold
    | PeriodCapReached

  /** Pools and `deposits` (the quote market's whole deposit side) are scaled balances; the
  counters are quote tokens. `vault` is the insurance-fund vault; `periodDrawn` is what pnl deficits
  drew since the current revenue-settle period opened. */
  datatype Market = Market(
    index: nat,
    pnlPool: nat, feePool: nat, protocolPool: nat, revenuePool: nat, deposits: nat,
    pendingProtocol: nat, pendingIf: nat, ammReceived: nat, pendingProvision: nat,
    maxInsurance: nat, settledInsurance: nat, vault: nat,
    claims: nat, ammEquity: int,
    long: nat, short: nat, cumLong: int, cumShort: int, ammLong: int, ammShort: int,
    unsettledFunding: int, socialLoss: nat, periodCap: nat, periodDrawn: nat)

  function PnlTokens(m: Market): (r: nat) { Tokens(m.pnlPool, m.index, PRECISION) }

  function FeeTokens(m: Market): (r: nat) { Tokens(m.feePool, m.index, PRECISION) }

  // ------------------------------------------------------------------------- fee sweep

  /** `get_pending_if_fee_floor`: a latched bankruptcy holds the whole counter, otherwise the
  standing floor holds its part; the delisting sweep holds nothing. */
  function Floor(m: Market, standing: nat, force: bool): (r: nat)
  {
    if force then 0 else if m.claims > 0 then m.pendingIf else standing
  }

  /** `get_bankruptcy_if_tranche_reservation` */
  function Reservation(m: Market, standing: nat, force: bool): (r: nat)
  {
    Min(m.pendingIf, Floor(m, standing, force))
  }

  /** What the sweep reads besides the market itself. */
  datatype SweepInputs = SweepInputs(
    netUserPnl: int, revenueShare: nat, buffer: nat, standing: nat, force: bool, paused: bool)

  function Reserved(m: Market, s: SweepInputs): (r: nat)
  {
    Max(s.netUserPnl, 0) + Reservation(m, s.standing, s.force) + s.revenueShare
  }

  /** Move tokens out of the pnl pool; `deposits` follows the two scaled deltas. */
  function FromPnl(m: Market, tokens: nat): (r: Result<(Market, nat), Error>)
    requires m.index > 0
  {
    match Debit(m.pnlPool, tokens, m.index, PRECISION)
    case None => Err(PoolShort)
    case Some(p) =>
      var credit := ToScaled(tokens, m.index, PRECISION);
      if m.deposits < m.pnlPool then Err(PoolShort)
      else
        DebitKeeps(m.pnlPool, tokens, m.index, PRECISION);
        Ok((m.(pnlPool := p, deposits := m.deposits - (m.pnlPool - p) + credit), credit))
  }

  datatype Swept = Swept(insurance: nat, protocol: nat, provision: nat)

  /** `sweep_market_fees`: protocol cut, then insurance cut, then the AMM provision, each out
  of what the pnl pool holds above the reserved claims. */
  function Sweep(m: Market, s: SweepInputs): (r: Result<(Market, Swept), Error>)
    requires m.index > 0
  {
    if (!s.force && s.paused) || (m.pendingProtocol == 0 && m.pendingIf == 0 && m.pendingProvision == 0) then
      Ok((m, Swept(0, 0, 0)))
    else
      var unbuffered := SatSub(PnlTokens(m), Reserved(m, s));
      var protocol := Min(m.pendingProtocol, unbuffered);
      var m1 :- SweepProtocol(m, protocol);
      var available := SatSub(unbuffered - protocol, s.buffer);
      var insurance := Min(SatSub(m.pendingIf, Floor(m, s.standing, s.force)), available);
      var m2 :- SweepInsurance(m1, insurance);
      var provision := Min(m.pendingProvision, available - insurance);
      var m3 :- SweepProvision(m2, provision);
      Ok((m3, Swept(insurance, protocol, provision)))
  }

  function SweepProtocol(m: Market, x: nat): (r: Result<Market, Error>)
    requires m.index > 0 && x <= m.pendingProtocol
  {
    if x == 0 then Ok(m)
    else
      var (m', credit) :- FromPnl(m, x);
      Ok(m'.(protocolPool := m'.protocolPool + credit, pendingProtocol := m.pendingProtocol - x))
  }

  function SweepInsurance(m: Market, x: nat): (r: Result<Market, Error>)
    requires m.index > 0
  {
    if x == 0 then Ok(m)
    else if x > m.pendingIf then Err(PoolShort)
    else
      var (m', credit) :- FromPnl(m, x);
      Ok(m'.(revenuePool := m'.revenuePool + credit, pendingIf := m.pendingIf - x))
  }

  function SweepProvision(m: Market, x: nat): (r: Result<Market, Error>)
    requires m.index > 0
  {
    if x == 0 then Ok(m)
    else if x > m.pendingProvision then Err(PoolShort)
    else
      var (m', credit) :- FromPnl(m, x);
      Ok(m'.(feePool := m'.feePool + credit, pendingProvision := m.pendingProvision - x))
  }

  // -------------------------------------------------------------- bankruptcy resolution

  /** Where a loss went. */
  datatype Waterfall = Waterfall(pendingFee: nat, insurance: nat, untokenized: nat, tokenized: nat, socialized: nat)

  /** Tranche 1: the market's own in-transit insurance fees, counter only. */
  function DrawPending(m: Market, loss: nat): (r: (Market, nat))
  {
    var x := Min(loss, m.pendingIf);
    (m.(pendingIf := m.pendingIf - x), x)
  }

  /** Tranche 2: the shared insurance vault, all but one unit, within the market's lifetime cap. */
  function DrawInsurance(m: Market, loss: nat): (r: Result<(Market, nat), Error>)
    requires m.index > 0
  {
    if m.settledInsurance > m.maxInsurance then Err(InsuranceOverdrawn)
    else
      var x := Min(Min(loss, SatSub(m.vault, 1)), m.maxInsurance - m.settledInsurance);
      var credit := ToScaled(x, m.index, PRECISION);
      Ok((m.(settledInsurance := m.settledInsurance + x, vault := m.vault - x,
             pnlPool := m.pnlPool + credit, deposits := m.deposits + credit), x))
  }

  /** Tranche 3a: the AMM's fee provision that is not tokens yet, counter only. */
  function ClawUntokenized(m: Market, budget: nat): (r: (Market, nat))
    requires budget <= m.ammReceived
  {
    var x := Min(budget, m.pendingProvision);
    (m.(pendingProvision := m.pendingProvision - x, ammReceived := m.ammReceived - x, ammEquity := m.ammEquity - x), x)
  }

  /** Tranche 3b: fee-pool tokens, moved to the pnl pool. */
  function ClawTokenized(m: Market, budget: nat): (r: Result<(Market, nat), Error>)
    requires m.index > 0 && budget <= m.ammReceived
  {
    var x := Min(budget, FeeTokens(m));
    if x == 0 then Ok((m, 0))
    else
      match Debit(m.feePool, x, m.index, PRECISION)
      case None => Err(PoolShort)
      case Some(p) =>
        if m.deposits < m.feePool then Err(PoolShort)
        else
          var credit := ToScaled(x, m.index, PRECISION);
          DebitKeeps(m.feePool, x, m.index, PRECISION);
          Ok((m.(feePool := p, pnlPool := m.pnlPool + credit, deposits := m.deposits - (m.feePool - p) + credit,
                 ammReceived := m.ammReceived - x, ammEquity := m.ammEquity - x), x))
  }

  /** Tranche 3, capped by the provision ever granted to the AMM. */
  function Clawback(m: Market, rest: nat): (r: Result<(Market, nat, nat), Error>)
    requires m.index > 0
  {
    var budget := Min(rest, m.ammReceived);
    var (m1, untokenized) := ClawUntokenized(m, budget);
    var (m2, tokenized) :- ClawTokenized(m1, budget - untokenized);
    Ok((m2, untokenized, tokenized))
  }

  /** Tranche 4: survivors on both sides owe the rest through the funding rates; the AMM is
  settled first and its stamps then skip the bump. */
  function Socialize(m: Market, loss: nat): (r: Result<Market, Error>)
  {
    if loss == 0 then Ok(m)
    else if m.long + m.short == 0 then Err(NoOpenInterest)
    else
      var d := FundingLedger.SocialDelta(loss, m.long + m.short);
      var paid := AmmPayment(m.long, 0 - m.short, m.cumLong - m.ammLong, m.cumShort - m.ammShort);
      Ok(m.(ammEquity := m.ammEquity + paid,
            cumLong := m.cumLong + d, cumShort := m.cumShort - d,
            ammLong := m.cumLong + d, ammShort := m.cumShort - d,
            unsettledFunding := m.unsettledFunding - loss, socialLoss := m.socialLoss + loss))
  }

  /** `resolve_perp_bankruptcy` on a debt of `loss` (`booked` when the debt was latched). */
  function Resolve(m: Market, loss: nat, booked: bool): (r: Result<(Market, Waterfall), Error>)
    requires m.index > 0
  {
    var (m1, pending) := DrawPending(m, loss);
    var (m2, insurance) :- DrawInsurance(m1, loss - pending);
    var rest := loss - pending - insurance;
    var (m3, untokenized, tokenized) :- Clawback(m2, rest);
    var social := rest - untokenized - tokenized;
    var m4 :- Socialize(m3, social);
    Ok((m4.(claims := if booked then SatSub(m4.claims, 1) else m4.claims),
        Waterfall(pending, insurance, untokenized, tokenized, social)))
  }

  // ------------------------------------------------------------------------ pnl deficits

  /** What a pnl-deficit draw reads besides the market: the users' net pnl, and by how much it
  exceeds the imbalance the market allows. */
  datatype DeficitInputs = DeficitInputs(netUserPnl: int, excess: int)

  /** `resolve_perp_pnl_deficit`, in a period whose counter is up to date: the vault pays into the
  pnl pool within the excess, the period's cap, the lifetime cap, and all but one unit. */
  function ResolveDeficit(m: Market, d: DeficitInputs): (r: Result<(Market, nat), Error>)
    requires m.index > 0
  {
    if m.ammEquity >= 0 then Err(NotUnderwater)
    else if PnlTokens(m) >= d.netUserPnl then Err(PoolSufficient)
    else if d.excess <= 0 then Err(BelowThreshold)
    else if m.periodDrawn >= m.periodCap then Err(PeriodCapReached)
    else if m.settledInsurance >= m.maxInsurance then Err(InsuranceOverdrawn)
    else
      var x := Min(Min(Min(d.excess, m.periodCap - m.periodDrawn), m.maxInsurance - m.settledInsurance),
                   SatSub(m.vault, 1));
      if x == 0 then Err(VaultShort)
      else
        var credit := ToScaled(x, m.index, PRECISION);
        Ok((m.(ammEquity := m.ammEquity + x, periodDrawn := m.periodDrawn + x,
               settledInsurance := m.settledInsurance + x, vault := m.vault - x,
               pnlPool := m.pnlPool + credit, deposits := m.deposits + credit), x))
  }
}
