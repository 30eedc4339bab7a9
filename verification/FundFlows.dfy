/** What the insurance fund pays and keeps: the value a request freezes, and every token that
goes in or out over a run. */
module FundFlows {
  import opened Arith
  import opened Shares
  import opened InsuranceFund
  import opened FundValue
  import opened Wrappers

  /** The shares an amount buys are worth at most it, and short of it by at most one share's worth
  and one unit. */
  lemma {:induction false} SharesWorth(v: nat, t: nat, amount: nat, n: nat)
    requires v > 0 && t > 0 && n <= t
    requires v * n <= amount * t < v * n + v
    ensures Redeem(v, t, n) <= amount <= Redeem(v, t, n) + v / t + 1
  {
    hide Redeem;
    var r, q := Redeem(v, t, n), v / t;
    assert t * r <= v * n < t * r + t;
    MulCancel(r, amount, t);
    DivBounds(v, t);
    Distrib(t, r, q + 2);
    Distrib(t, q, 2);
    MulCancel(amount, r + q + 2, t);
  }

  /** Asking for `amount` freezes at most that, always less than the vault, and no less than the
  amount (or all but one unit of the vault) by more than one share's worth; a rebase on the way
  may move it by one unit. */
  lemma {:induction false} RequestFreezesAmount(f: Fund, i: nat, amount: nat, now: int)
    requires Inv(f) && RequestRemove(f, i, amount, now).Ok?
    ensures f.vault > 0 && f.total > 0 && i < |RequestRemove(f, i, amount, now).value.stakes|
    ensures var g := RequestRemove(f, i, amount, now).value;
            var s := g.stakes[i];
            && s.requestTs == now && s.requestValue < g.vault == f.vault
            && s.requestValue <= amount + Slack(f, g)
            && Min(amount, f.vault - 1) <= s.requestValue + f.vault / f.total + 1 + Slack(f, g)
  {
    hide Redeem, SharesFor;
    var n := SharesFor(amount, f.total, f.vault).value;
    var s0 := f.stakes[i].(requestShares := n);
    TotalUpdate(f.stakes, f.base, i, s0);
    var f0 := f.(stakes := f.stakes[i := s0]);
    OneOfTotal(f0.stakes, f0.base, i);
    SyncKeepsInv(f0, i);
    RebaseKeepsRedeem(f0, n);
    SharesWorth(f.vault, f.total, amount, n);
  }

  /** Unstaked before anything else happens, a request pays exactly the frozen value. */
  lemma {:induction false} FrozenValueIsPaid(f: Fund, i: nat, amount: nat, t1: int, t2: int, p: int)
    requires Inv(f) && RequestRemove(f, i, amount, t1).Ok?
    requires RemoveStake(RequestRemove(f, i, amount, t1).value, i, t2, p).Ok?
    ensures var g := RequestRemove(f, i, amount, t1).value;
            && i < |g.stakes| && RemoveStake(g, i, t2, p).value.1 == g.stakes[i].requestValue
  {
    hide Redeem, SharesFor, SharesLost, RebaseExpo;
    var n := SharesFor(amount, f.total, f.vault).value;
    var s0 := f.stakes[i].(requestShares := n);
    TotalUpdate(f.stakes, f.base, i, s0);
    var f0 := f.(stakes := f.stakes[i := s0]);
    SyncKeepsInv(f0, i);
    SyncSettled(f0, i);
  }

  /** A sole staker whose request was frozen at 9 cancels after the vault grew to 20, and keeps
  every share. */
  lemma {:induction false} SoleStakerKeepsUpside()
    ensures var f := Fund(20, 10, 10, 0, 10, [Stake(10, 0, 10, 9, 0)]);
            && Inv(f) && CancelRequest(f, 0, 1).Ok?
            && CancelRequest(f, 0, 1).value.stakes[0].shares == 10
            && Redeem(20, CancelRequest(f, 0, 1).value.total, 10) == 20 > f.stakes[0].requestValue
  {
    var f := Fund(20, 10, 10, 0, 10, [Stake(10, 0, 10, 9, 0)]);
    assert Total(f.stakes[1..], 0) == 0;
    assert RebaseFund(f) == f;
    assert Sync(f, 0).value == f;
    assert SharesLost(f, f.stakes[0]) == Ok(0);
  }

  /** The same staker unstaking after the vault fell to 5 is turned away. */
  lemma {:induction false} LastUnstakeReverts()
    ensures var f := Fund(5, 10, 10, 0, 5, [Stake(10, 0, 10, 9, 0)]);
            Inv(f) && RemoveStake(f, 0, 100, 50) == Err(VaultMustRemainPositive)
  {
    var f := Fund(5, 10, 10, 0, 5, [Stake(10, 0, 10, 9, 0)]);
    assert Total(f.stakes[1..], 0) == 0;
    assert RebaseExpo(10, 5) == 0;
    assert RebaseFund(f) == f;
    assert Sync(f, 0).value == f;
  }

  /** Tokens that moved: in as stakes, revenue and donations, out as payouts and losses. */
  datatype Flow = Flow(staked: nat, revenue: nat, donated: nat, paid: nat, lost: nat)

  function AddFlow(a: Flow, b: Flow): (r: Flow)
  {
    Flow(a.staked + b.staked, a.revenue + b.revenue, a.donated + b.donated, a.paid + b.paid, a.lost + b.lost)
  }

  function StepFlow(f: Fund, e: Event): (r: Flow)
  {
    match e
    case Add(i, x) => (match AddStake(f, i, x) case Ok(p) => Flow(p.1, 0, 0, 0, 0) case Err(_) => Flow(0, 0, 0, 0, 0))
    case Remove(i, now, p) =>
      (match RemoveStake(f, i, now, p) case Ok(q) => Flow(0, 0, 0, q.1, 0) case Err(_) => Flow(0, 0, 0, 0, 0))
    case Settle(x) => Flow(0, x, 0, 0, 0)
    case Donate(x) => Flow(0, 0, x, 0, 0)
    case Loss(x) => Flow(0, 0, 0, 0, Min(x, SatSub(f.vault, 1)))
    case _ => Flow(0, 0, 0, 0, 0)
  }

  function RunFlow(f: Fund, es: seq<Event>): (r: Flow)
    decreases |es|
  {
    if es == [] then Flow(0, 0, 0, 0, 0) else AddFlow(StepFlow(f, es[0]), RunFlow(Step(f, es[0]), es[1..]))
  }

  lemma {:induction false} StepConservesVault(f: Fund, e: Event)
    requires Inv(f)
    ensures var w := StepFlow(f, e); Step(f, e).vault == f.vault + w.staked + w.revenue + w.donated - w.paid - w.lost
  {
    hide AddStake, RemoveStake, RequestRemove, CancelRequest;
    match e
    case Add(i, x) =>
      if AddStake(f, i, x).Ok? {
        var h, cost, n := AddSplits(f, i, x);
        MintFields(h, i, cost, n);
      }
    case Remove(i, now, p) =>
      if RemoveStake(f, i, now, p).Ok? {
        RemoveNeedsStake(f, i, now, p);
        RemoveKeepsClaims(f, i, now, p, i);
      }
    case Request(i, x, now) => RequestKeepsInv(f, i, x, now);
    case Cancel(i, now) => CancelKeepsInv(f, i, now);
    case _ =>
  }

  lemma {:induction false} RemoveNeedsStake(f: Fund, i: nat, now: int, p: int)
    requires RemoveStake(f, i, now, p).Ok?
    ensures i < |f.stakes|
  {
    hide Redeem, SharesLost;
  }

  /** Over every run the vault holds exactly what went in less what was charged out: no operation
  makes or loses a token. */
  lemma {:induction false} RunConservesVault(f: Fund, es: seq<Event>)
    requires Inv(f)
    ensures var w := RunFlow(f, es); Run(f, es).vault == f.vault + w.staked + w.revenue + w.donated - w.paid - w.lost
    decreases |es|
  {
    hide Step, StepFlow;
    if es == [] {
    } else {
      StepConservesVault(f, es[0]);
      StepKeepsInv(f, es[0]);
      RunConservesVault(Step(f, es[0]), es[1..]);
    }
  }
}
