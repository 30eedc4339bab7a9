/** The insurance fund as the program runs it: fields updated step by step inside one
transaction, rolled back when a check fails. Every method is proved to do exactly what the
corresponding function of `InsuranceFund` says. */
module FundAccount {
  import opened Arith
  import opened Shares
  import opened InsuranceFund
  import opened FundFlows
  import opened Wrappers

  class Account {
    var vault: nat
    var total: nat
    var user: nat
    var base: nat
    var snapshot: nat
    var stakes: seq<Stake>

    function Value(): (r: Fund)
      reads this
    {
      Fund(vault, total, user, base, snapshot, stakes)
    }

    constructor ()
      ensures Value() == Fund(0, 0, 0, 0, 0, []) && Inv(Value())
    {
      vault, total, user, base, snapshot, stakes := 0, 0, 0, 0, 0, [];
    }

    /** A failed instruction leaves no trace. */
    method Rollback(f: Fund)
      modifies this
      ensures Value() == f
    {
      vault, total, user, base, snapshot, stakes := f.vault, f.total, f.user, f.base, f.snapshot, f.stakes;
    }

    /** `apply_rebase_to_insurance_fund` */
    method ApplyRebase()
      modifies this
      ensures Value() == RebaseFund(old(Value()))
    {
      hide Shift;
      if vault != 0 && vault < total {
        var expo := Log10Iter((total / 10) / vault);
        total := Shift(total, expo);
        user := Shift(user, expo);
        base := base + expo;
      }
      if vault != 0 && total == 0 {
        total := vault;
      }
    }

    /** `apply_rebase_to_insurance_fund_stake` */
    method ApplyRebaseToStake(i: nat) returns (r: Result<(), Error>)
      requires i < |stakes|
      modifies this
      ensures match RebaseStake(old(stakes[i]), base)
              case Ok(s) => r == Ok(()) && Value() == old(Value()).(stakes := old(stakes)[i := s])
              case Err(e) => r == Err(e) && Value() == old(Value())
    {
      var s := stakes[i];
      if base != s.base {
        if base < s.base {
          return Err(InvalidRebase);
        }
        var expo := base - s.base;
        stakes := stakes[i := s.(base := base)];
        stakes := stakes[i := stakes[i].(shares := Shift(s.shares, expo))];
        stakes := stakes[i := stakes[i].(requestShares := Shift(s.requestShares, expo))];
      }
      assert stakes == old(stakes)[i := stakes[i]];
      return Ok(());
    }

    method SyncStake(i: nat) returns (r: Result<(), Error>)
      requires i < |stakes|
      modifies this
      ensures match Sync(old(Value()), i)
              case Ok(g) => r == Ok(()) && Value() == g
              case Err(e) => r == Err(e)
      ensures |stakes| == old(|stakes|)
    {
      hide RebaseFund, RebaseStake;
      ApplyRebase();
      assert stakes == RebaseFund(old(Value())).stakes;
      RebaseKeepsStakes(old(Value()));
      r := ApplyRebaseToStake(i);
    }

    /** `add_insurance_fund_stake`: returns the amount to transfer in. */
    method Stake(i: nat, requested: nat) returns (r: Result<nat, Error>)
      modifies this
      ensures match AddStake(old(Value()), i, requested)
              case Ok(p) => r == Ok(p.1) && Value() == p.0
              case Err(e) => r == Err(e) && Value() == old(Value())
    {
      hide Sync, DepositQuote;
      var entry := Value();
      if i >= |stakes| {
        return Err(NoStakeAccount);
      }
      if stakes[i].requestShares != 0 || stakes[i].requestValue != 0 {
        return Err(RequestInProgress);
      }
      if vault == 0 && total != 0 {
        return Err(InvalidForNewStakes);
      }
      if total == 0 && vault > 0 {
        total := vault;
      }
      var synced := SyncStake(i);
      if synced.Err? {
        Rollback(entry);
        return Err(synced.error);
      }
      var quote := DepositQuote(requested, total, vault);
      if quote.None? {
        Rollback(entry);
        return Err(InvalidShares);
      }
      var (cost, n) := quote.value;
      if n == 0 {
        Rollback(entry);
        return Err(DepositMintsZeroShares);
      }
      stakes := stakes[i := stakes[i].(shares := stakes[i].shares + n)];
      total := total + n;
      user := user + n;
      vault := vault + cost;
      return Ok(cost);
    }

    /** `request_remove_insurance_fund_stake` */
    method Request(i: nat, amount: nat, now: int) returns (r: Result<(), Error>)
      modifies this
      ensures match RequestRemove(old(Value()), i, amount, now)
              case Ok(g) => r == Ok(()) && Value() == g
              case Err(e) => r == Err(e) && Value() == old(Value())
    {
      hide Sync, SharesFor, Redeem;
      var entry := Value();
      if i >= |stakes| {
        return Err(NoStakeAccount);
      }
      if stakes[i].requestShares != 0 {
        return Err(RequestInProgress);
      }
      var wanted := SharesFor(amount, total, vault);
      if wanted.None? {
        return Err(InvalidShares);
      }
      if wanted.value == 0 {
        return Err(RequestTooSmall);
      }
      if stakes[i].base != base {
        return Err(InvalidRebase);
      }
      if stakes[i].shares < wanted.value {
        return Err(InsufficientShares);
      }
      stakes := stakes[i := stakes[i].(requestShares := wanted.value)];
      var synced := SyncStake(i);
      if synced.Err? {
        Rollback(entry);
        return Err(synced.error);
      }
      if stakes[i].requestShares > stakes[i].shares {
        Rollback(entry);
        return Err(InvalidUnstakeSize);
      }
      if stakes[i].requestShares > total {
        Rollback(entry);
        return Err(InvalidShares);
      }
      var value := Min(Redeem(vault, total, stakes[i].requestShares), SatSub(vault, 1));
      if value != 0 && value >= vault {
        Rollback(entry);
        return Err(InvalidUnstakeSize);
      }
      stakes := stakes[i := stakes[i].(requestValue := value, requestTs := now)];
      return Ok(());
    }

    /** `cancel_request_remove_insurance_fund_stake` */
    method Cancel(i: nat, now: int) returns (r: Result<(), Error>)
      modifies this
      ensures match CancelRequest(old(Value()), i, now)
              case Ok(g) => r == Ok(()) && Value() == g
              case Err(e) => r == Err(e) && Value() == old(Value())
    {
      hide Sync, SharesLost;
      var entry := Value();
      if i >= |stakes| {
        return Err(NoStakeAccount);
      }
      if stakes[i].requestShares == 0 {
        return Err(NoRequestInProgress);
      }
      var synced := SyncStake(i);
      if synced.Err? {
        Rollback(entry);
        return Err(synced.error);
      }
      var forfeited := SharesLost(Value(), stakes[i]);
      if forfeited.Err? {
        Rollback(entry);
        return Err(forfeited.error);
      }
      var lost := forfeited.value;
      if lost > stakes[i].shares || lost > total || lost > user {
        Rollback(entry);
        return Err(InvalidShares);
      }
      stakes := stakes[i := stakes[i].(shares := stakes[i].shares - lost)];
      total := total - lost;
      user := user - lost;
      stakes := stakes[i := stakes[i].(requestShares := 0, requestValue := 0, requestTs := now)];
      return Ok(());
    }

    /** `remove_insurance_fund_stake`: returns the amount transferred out. */
    method Unstake(i: nat, now: int, unstakingPeriod: int) returns (r: Result<nat, Error>)
      modifies this
      ensures match RemoveStake(old(Value()), i, now, unstakingPeriod)
              case Ok(p) => r == Ok(p.1) && Value() == p.0
              case Err(e) => r == Err(e) && Value() == old(Value())
    {
      hide Sync, SharesLost, Redeem;
      var entry := Value();
      if i >= |stakes| {
        return Err(NoStakeAccount);
      }
      if now - stakes[i].requestTs < unstakingPeriod {
        return Err(TooFast);
      }
      var synced := SyncStake(i);
      if synced.Err? {
        Rollback(entry);
        return Err(synced.error);
      }
      var n := stakes[i].requestShares;
      if n == 0 {
        Rollback(entry);
        return Err(NothingRequested);
      }
      if stakes[i].shares < n {
        Rollback(entry);
        return Err(InsufficientShares);
      }
      if n > total || n > user {
        Rollback(entry);
        return Err(InvalidShares);
      }
      var forfeited := SharesLost(Value(), stakes[i]);
      if forfeited.Err? {
        Rollback(entry);
        return Err(forfeited.error);
      }
      var paid := Min(Redeem(vault, total, n), stakes[i].requestValue);
      stakes := stakes[i := stakes[i].(shares := stakes[i].shares - n)];
      total := total - n;
      user := user - n;
      snapshot := Min(snapshot, SatSub(vault, paid));
      stakes := stakes[i := stakes[i].(requestShares := 0, requestValue := 0, requestTs := now)];
      vault := vault - paid;
      if vault == 0 {
        Rollback(entry);
        return Err(VaultMustRemainPositive);
      }
      return Ok(paid);
    }

    /** `settle_revenue_to_insurance_fund`, from the amount on. */
    method Settle(amount: nat)
      modifies this
      ensures Value() == SettleRevenue(old(Value()), amount)
    {
      if total == 0 {
        total := vault + amount;
      }
      vault := vault + amount;
      snapshot := vault;
    }

    /** A bankruptcy's draw on the vault, with `record_insurance_fund_outflow`. */
    method PayLoss(wanted: nat) returns (paid: nat)
      modifies this
      ensures Value() == Draw(old(Value()), wanted) && paid == old(vault) - vault
    {
      paid := Min(wanted, SatSub(vault, 1));
      snapshot := Min(snapshot, SatSub(vault, paid));
      vault := vault - paid;
    }

    method OpenStake()
      modifies this
      ensures Value() == Step(old(Value()), Event.Open)
    {
      stakes := stakes + [InsuranceFund.Stake(0, 0, 0, 0, 0)];
    }

    /** One event, as the program handles it: the books stay coherent. */
    method Apply(e: Event)
      requires Inv(Value())
      modifies this
      ensures Value() == Step(old(Value()), e) && Inv(Value())
    {
      hide RebaseFund, AddStake, RequestRemove, CancelRequest, RemoveStake, SettleRevenue, Draw, Inv;
      StepKeepsInv(Value(), e);
      match e
      case Open => OpenStake();
      case Add(i, x) => var _ := Stake(i, x);
      case Request(i, x, now) => var _ := Request(i, x, now);
      case Cancel(i, now) => var _ := Cancel(i, now);
      case Remove(i, now, p) => var _ := Unstake(i, now, p);
      case Settle(x) => Settle(x);
      case Donate(x) => vault := vault + x;
      case Loss(x) => var _ := PayLoss(x);
    }

    /** Any sequence of instructions, failed ones included: the account ends where the run of the
    model ends, with every staker's claim backed and every token accounted for. */
    method Replay(es: seq<Event>)
      requires Inv(Value())
      modifies this
      ensures Value() == Run(old(Value()), es) && Inv(Value())
      ensures Claims(Value(), |stakes|) <= vault
      ensures var w := RunFlow(old(Value()), es);
              vault == old(vault) + w.staked + w.revenue + w.donated - w.paid - w.lost
    {
      hide Step, Inv;
      assert es[0..] == es;
      for i := 0 to |es|
        invariant Inv(Value()) && Run(old(Value()), es) == Run(Value(), es[i..])
      {
        assert es[i..][1..] == es[i + 1..];
        Apply(es[i]);
      }
      assert es[|es|..] == [];
      RunConservesVault(old(Value()), es);
      ClaimsAtMostVault(Value());
    }
  }

  lemma {:induction false} RebaseKeepsStakes(f: Fund)
    ensures RebaseFund(f).stakes == f.stakes
  {
  }
}
