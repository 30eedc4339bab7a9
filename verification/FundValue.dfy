/** What the insurance-fund operations do to everybody's redeemable claim. */
module FundValue {
  import opened Arith
  import opened Shares
  import opened InsuranceFund
  import opened Wrappers

  /** One unit of slack when a step rebased the fund, none otherwise. */
  function Slack(f: Fund, g: Fund): (r: nat)
  {
    if g.base == f.base then 0 else 1
  }

  /** A claim depends on the fund only through these four numbers. */
  lemma {:induction false} ClaimIs(f: Fund, j: nat, v: nat, t: nat, u: nat)
    requires Inv(f) && j < |f.stakes|
    requires v == f.vault && t == f.total && u == Effective(f.stakes[j], f.base)
    ensures u <= t && Claim(f, j) == Redeem(v, t, u)
  {
    OneOfTotal(f.stakes, f.base, j);
  }

  lemma {:induction false} SyncedStake(f: Fund, i: nat)
    requires Inv(f) && i < |f.stakes|
    ensures Sync(f, i).Ok? && RebaseFund(f).base >= f.base
    ensures var g := Sync(f, i).value; Effective(g.stakes[i], g.base) == Effective(f.stakes[i], g.base)
  {
    SyncKeepsInv(f, i);
  }

  /** Rebasing the fund and one stake moves no claim by more than one unit, and moves none
  at all when no digit is dropped. */
  lemma {:induction false} SyncKeepsClaims(f: Fund, i: nat, j: nat)
    requires Inv(f) && i < |f.stakes| && j < |f.stakes|
    ensures var g := Sync(f, i).value;
            && Inv(g) && |g.stakes| == |f.stakes|
            && Claim(f, j) <= Claim(g, j) + Slack(f, g)
            && Claim(g, j) <= Claim(f, j) + Slack(f, g)
  {
    hide Redeem, Shift, RebaseFund, RebaseStake;
    SyncKeepsInv(f, i);
    var g := Sync(f, i).value;
    SyncedStake(f, i);
    OneOfTotal(f.stakes, f.base, j);
    var u := Effective(f.stakes[j], f.base);
    EffectiveRebased(f.stakes[j], f.base, g.base - f.base);
    assert f.base + (g.base - f.base) == g.base;
    assert Effective(g.stakes[j], g.base) == Shift(u, g.base - f.base);
    ClaimIs(f, j, f.vault, f.total, u);
    ClaimIs(g, j, g.vault, g.total, Shift(u, g.base - f.base));
    RebaseKeepsRedeem(f, u);
  }

  /** The rebase at the level of one redeemable amount. */
  lemma {:induction false} RebaseKeepsRedeem(f: Fund, u: nat)
    requires u <= f.user <= f.total
    ensures var g := RebaseFund(f);
            && f.base <= g.base && Shift(u, g.base - f.base) <= g.total
            && Redeem(f.vault, f.total, u) <= Redeem(f.vault, g.total, Shift(u, g.base - f.base)) + Slack(f, g)
            && Redeem(f.vault, g.total, Shift(u, g.base - f.base)) <= Redeem(f.vault, f.total, u) + Slack(f, g)
  {
    hide Redeem, Shift, RebaseExpo;
    if 0 < f.vault < f.total {
      var e := RebaseExpo(f.total, f.vault);
      ProgramRebaseBound(f.vault, f.total, u);
      if e > 0 { RebaseLeavesTenfold(f.total, f.vault); }
      assert RebaseFund(f).total == Shift(f.total, e) && RebaseFund(f).base - f.base == e;
    } else if f.total == 0 {
      NoShares(f.vault, 0);
      NoShares(f.vault, f.vault);
    }
  }

  /** Staking by `i`: nobody else's claim falls (save a rebase unit), the staker's claim grows
  by at most what was charged, and falls short of that by at most one unit. */
  lemma {:induction false} AddKeepsClaims(f: Fund, i: nat, requested: nat, j: nat)
    requires Inv(f) && j < |f.stakes|
    requires AddStake(f, i, requested).Ok?
    ensures var (g, cost) := AddStake(f, i, requested).value;
            && Inv(g) && |g.stakes| == |f.stakes|
            && 0 < cost <= requested && g.vault == f.vault + cost
            && (j != i ==> Claim(f, j) <= Claim(g, j) + Slack(f, g))
            && Claim(g, i) <= Claim(f, i) + cost + Slack(f, g)
            && (f.vault > 0 ==> Claim(f, i) + cost <= Claim(g, i) + 1 + Slack(f, g))
  {
    hide Redeem, DepositQuote, Claim, Sync;
    var h, cost, n := AddSplits(f, i, requested);
    SeededSyncKeepsClaims(f, i, j);
    SeededSyncKeepsClaims(f, i, i);
    MintKeepsClaims(h, i, cost, n, j);
  }

  /** The fund a stake instruction starts from: shares seeded one to one if there were none. */
  function Seeded(f: Fund): (r: Fund)
  {
    if f.total == 0 && f.vault > 0 then f.(total := f.vault) else f
  }

  lemma {:induction false} SeededSyncKeepsClaims(f: Fund, i: nat, j: nat)
    requires Inv(f) && i < |f.stakes| && j < |f.stakes|
    ensures Inv(Seeded(f)) && Sync(Seeded(f), i).Ok?
    ensures var g := Sync(Seeded(f), i).value;
            && Inv(g) && |g.stakes| == |f.stakes|
            && Claim(f, j) <= Claim(g, j) + Slack(f, g)
            && Claim(g, j) <= Claim(f, j) + Slack(f, g)
  {
    hide Redeem, Sync;
    var u := Effective(f.stakes[j], f.base);
    OneOfTotal(f.stakes, f.base, j);
    ClaimIs(f, j, f.vault, f.total, u);
    ClaimIs(Seeded(f), j, f.vault, Seeded(f).total, u);
    if f.total == 0 && f.vault > 0 {
      NoShares(f.vault, 0);
      NoShares(f.vault, f.vault);
    }
    assert Claim(Seeded(f), j) == Claim(f, j);
    SyncKeepsInv(Seeded(f), i);
    SyncKeepsClaims(Seeded(f), i, j);
    assert Seeded(f).base == f.base;
  }

  lemma {:induction false} NoShares(v: nat, t: nat)
    ensures Redeem(v, t, 0) == 0
  {
    if t > 0 { RedeemIsFloor(v, t, 0); }
  }

  /** A successful stake is a seeding, a rebase and a mint at or above the share price. */
  lemma {:induction false} AddSplits(f: Fund, i: nat, requested: nat) returns (h: Fund, cost: nat, n: nat)
    requires Inv(f) && AddStake(f, i, requested).Ok?
    ensures i < |f.stakes| && Inv(Seeded(f)) && Sync(Seeded(f), i).Ok? && h == Sync(Seeded(f), i).value
    ensures Inv(h) && |h.stakes| == |f.stakes| && h.stakes[i].base == h.base && h.vault == f.vault
    ensures n > 0 && 0 < cost <= requested
    ensures h.vault == 0 ==> h.total == 0 && cost == n
    ensures h.vault > 0 ==> h.total > 0 && n * h.vault <= cost * h.total < n * h.vault + h.total
    ensures AddStake(f, i, requested).value == (Mint(h, i, cost, n), cost)
    ensures h.stakes[i].shares == Effective(f.stakes[i], h.base)
  {
    hide DepositQuote;
    SyncKeepsInv(Seeded(f), i);
    h := Sync(Seeded(f), i).value;
    var q := DepositQuote(requested, h.total, h.vault).value;
    cost, n := q.0, q.1;
  }

  /** Minting at or above the share price. */
  lemma {:induction false} MintKeepsClaims(h: Fund, i: nat, cost: nat, n: nat, j: nat)
    requires Inv(h) && i < |h.stakes| && j < |h.stakes| && h.stakes[i].base == h.base
    requires n > 0
    requires h.vault == 0 ==> h.total == 0 && cost == n
    requires h.vault > 0 ==> h.total > 0 && n * h.vault <= cost * h.total < n * h.vault + h.total
    ensures var g := Mint(h, i, cost, n);
            && Inv(g)
            && (j != i ==> Claim(h, j) <= Claim(g, j))
            && Claim(g, i) <= Claim(h, i) + cost
            && (h.vault > 0 ==> Claim(h, i) + cost <= Claim(g, i) + 1)
  {
    hide Redeem, SharesFor, DepositQuote;
    MintKeepsInv(h, i, cost, n);
    var g := Mint(h, i, cost, n);
    OneOfTotal(h.stakes, h.base, i);
    var own := h.stakes[i].shares;
    ClaimIs(h, i, h.vault, h.total, own);
    ClaimIs(g, i, h.vault + cost, h.total + n, own + n);
    if h.vault > 0 {
      DepositKeepsValue(h.vault, h.total, cost, n, own);
      if j != i {
        var u := Effective(h.stakes[j], h.base);
        ClaimIs(h, j, h.vault, h.total, u);
        ClaimIs(g, j, h.vault + cost, h.total + n, u);
        RedeemPriceMono(h.vault, h.total, h.vault + cost, h.total + n, u);
      }
    } else if j != i {
      OneOfTotal(h.stakes, h.base, j);
    }
  }

  /** Asking to unstake changes no claim beyond the rebase unit. */
  lemma {:induction false} RequestKeepsClaims(f: Fund, i: nat, amount: nat, now: int, j: nat)
    requires Inv(f) && j < |f.stakes|
    requires RequestRemove(f, i, amount, now).Ok?
    ensures var g := RequestRemove(f, i, amount, now).value;
            && Inv(g) && |g.stakes| == |f.stakes| && g.vault == f.vault
            && Claim(f, j) <= Claim(g, j) + Slack(f, g)
            && Claim(g, j) <= Claim(f, j) + Slack(f, g)
  {
    hide Redeem, SharesFor, DepositQuote;
    RequestKeepsInv(f, i, amount, now);
    var g := RequestRemove(f, i, amount, now).value;
    var n := SharesFor(amount, f.total, f.vault).value;
    var s0 := f.stakes[i].(requestShares := n);
    TotalUpdate(f.stakes, f.base, i, s0);
    var f0 := f.(stakes := f.stakes[i := s0]);
    ClaimIs(f, j, f.vault, f.total, Effective(f.stakes[j], f.base));
    ClaimIs(f0, j, f.vault, f.total, Effective(f.stakes[j], f.base));
    SyncKeepsClaims(f0, i, j);
    SyncKeepsInv(f0, i);
    var h := Sync(f0, i).value;
    ClaimIs(h, j, h.vault, h.total, Effective(h.stakes[j], h.base));
    ClaimIs(g, j, h.vault, h.total, Effective(h.stakes[j], h.base));
  }

  /** A pending request can always be cancelled. */
  lemma {:induction false} CancelAlwaysSucceeds(f: Fund, i: nat, now: int)
    requires Inv(f) && i < |f.stakes| && f.stakes[i].requestShares != 0
    ensures CancelRequest(f, i, now).Ok?
  {
    SyncKeepsInv(f, i);
    var g := Sync(f, i).value;
    SharesLostBounded(g, g.stakes[i]);
  }

  /** Cancelling lowers nobody else's claim (save a rebase unit). */
  lemma {:induction false} CancelKeepsClaims(f: Fund, i: nat, now: int, j: nat)
    requires Inv(f) && j < |f.stakes| && j != i
    requires CancelRequest(f, i, now).Ok?
    ensures var g := CancelRequest(f, i, now).value;
            && Inv(g) && |g.stakes| == |f.stakes| && g.vault == f.vault
            && Claim(f, j) <= Claim(g, j) + Slack(f, g)
  {
    hide Redeem, SharesFor, DepositQuote;
    CancelKeepsInv(f, i, now);
    var g := CancelRequest(f, i, now).value;
    SyncKeepsInv(f, i);
    SyncKeepsClaims(f, i, j);
    var h := Sync(f, i).value;
    var u := Effective(h.stakes[j], h.base);
    ClaimIs(h, j, h.vault, h.total, u);
    ClaimIs(g, j, h.vault, g.total, u);
    if g.total > 0 {
      MulMono(g.total, h.total, h.vault);
      RedeemPriceMono(h.vault, h.total, h.vault, g.total, u);
    }
  }

  /** No free option: the shares kept out of a cancelled request are worth at most the value
  frozen when it was made, exactly unless the request covers the whole fund and the vault
  has grown past that value. */
  lemma {:induction false} CancelKeepsNoUpside(f: Fund, i: nat, now: int)
    requires Inv(f) && i < |f.stakes| && f.stakes[i].requestShares != 0
    ensures Sync(f, i).Ok? && CancelRequest(f, i, now).Ok?
    ensures var g := Sync(f, i).value; var c := CancelRequest(f, i, now).value;
            var asked := g.stakes[i].requestShares; var lost := g.total - c.total;
            && c.vault == g.vault == f.vault && 0 <= lost <= asked <= g.total
            && c.stakes[i].shares == g.stakes[i].shares - lost
            && (Redeem(c.vault, c.total, asked - lost) <= f.stakes[i].requestValue
                <==> asked < g.total || f.vault <= f.stakes[i].requestValue || g.total == 0)
  {
    hide Redeem, SharesFor;
    CancelAlwaysSucceeds(f, i, now);
    SyncKeepsInv(f, i);
    var g := Sync(f, i).value;
    ForfeitCapsValue(g, g.stakes[i]);
  }

  lemma {:induction false} ForfeitCapsValue(g: Fund, s: Stake)
    requires s.requestShares <= g.total
    ensures SharesLost(g, s).Ok? && SharesLost(g, s).value <= s.requestShares
    ensures var lost := SharesLost(g, s).value;
            Redeem(g.vault, g.total - lost, s.requestShares - lost) <= s.requestValue
            <==> s.requestShares < g.total || g.vault <= s.requestValue || g.total == 0
  {
    hide Redeem, SharesFor, SharesLost;
    SharesLostBounded(g, s);
    var n := s.requestShares;
    if n == g.total {
      assert SharesLost(g, s) == Ok(0) by { NothingLost(g, s); }
      if n == 0 { NoShares(g.vault, 0); }
    } else if Redeem(g.vault, g.total, n) <= s.requestValue {
      NothingLost(g, s);
    } else {
      var m := SharesFor(s.requestValue, g.total - n, g.vault - s.requestValue).value;
      LostIs(g, s, m);
      RestakeBounded(g.vault, g.total, n, s.requestValue);
      assert n - (n - m) == m;
    }
  }

  lemma {:induction false} NothingLost(g: Fund, s: Stake)
    requires s.requestShares <= g.total
    requires s.requestShares == g.total || Redeem(g.vault, g.total, s.requestShares) <= s.requestValue
    ensures SharesLost(g, s) == Ok(0)
  {
    hide Redeem, SharesFor;
  }

  lemma {:induction false} LostIs(g: Fund, s: Stake, m: nat)
    requires s.requestShares < g.total && Redeem(g.vault, g.total, s.requestShares) > s.requestValue
    requires SharesFor(s.requestValue, g.total - s.requestShares, g.vault - s.requestValue) == Some(m)
    ensures m <= s.requestShares && SharesLost(g, s) == Ok(s.requestShares - m)
  {
    hide Redeem, SharesFor;
    RestakeBounded(g.vault, g.total, s.requestShares, s.requestValue);
  }

  /** Unstaking: nobody else's claim falls (save a rebase unit), and the payout plus what the
  staker still holds is at most what the staker held. */
  lemma {:induction false} RemoveKeepsClaims(f: Fund, i: nat, now: int, p: int, j: nat)
    requires Inv(f) && j < |f.stakes|
    requires RemoveStake(f, i, now, p).Ok?
    ensures var (g, paid) := RemoveStake(f, i, now, p).value;
            && Inv(g) && |g.stakes| == |f.stakes|
            && g.vault == f.vault - paid && paid <= f.stakes[i].requestValue
            && (j != i ==> Claim(f, j) <= Claim(g, j) + Slack(f, g))
            && Claim(g, i) + paid <= Claim(f, i) + Slack(f, g)
  {
    hide Redeem, SharesFor, DepositQuote;
    RemoveKeepsInv(f, i, now, p);
    var (g, paid) := RemoveStake(f, i, now, p).value;
    SyncKeepsInv(f, i);
    SyncKeepsClaims(f, i, j);
    SyncKeepsClaims(f, i, i);
    var h := Sync(f, i).value;
    var s := h.stakes[i];
    BurnKeepsClaims(h, i, paid, s.requestShares, j, g);
  }

  lemma {:induction false} WorthOfShares(v: nat, t: nat, n: nat, paid: nat)
    requires n <= t && t > 0 && paid <= Redeem(v, t, n)
    ensures paid * t <= v * n
  {
    hide Redeem;
    MulMono(paid, Redeem(v, t, n), t);
  }

  lemma {:induction false} BurnKeepsClaims(h: Fund, i: nat, paid: nat, n: nat, j: nat, g: Fund)
    requires Inv(h) && i < |h.stakes| && j < |h.stakes| && h.stakes[i].base == h.base
    requires 0 < n <= h.stakes[i].shares && n <= h.total && h.vault > 0
    requires paid <= Redeem(h.vault, h.total, n)
    requires Inv(g) && g.base == h.base && g.vault == h.vault - paid && g.total == h.total - n
    requires |g.stakes| == |h.stakes| && g.stakes[i].base == h.base && g.stakes[i].shares == h.stakes[i].shares - n
    requires j != i ==> g.stakes[j] == h.stakes[j]
    ensures j != i ==> Claim(h, j) <= Claim(g, j)
    ensures Claim(g, i) + paid <= Claim(h, i)
  {
    hide Redeem, SharesFor, DepositQuote, Claim, Total, Shift;
    var own := h.stakes[i].shares;
    ClaimIs(h, i, h.vault, h.total, own);
    ClaimIs(g, i, h.vault - paid, h.total - n, own - n);
    WorthOfShares(h.vault, h.total, n, paid);
    WithdrawKeepsValue(h.vault, h.total, paid, n, own);
    if j != i {
      var u := Effective(h.stakes[j], h.base);
      ClaimIs(h, j, h.vault, h.total, u);
      ClaimIs(g, j, h.vault - paid, h.total - n, u);
      if h.total - n > 0 {
        RedeemPriceMono(h.vault, h.total, h.vault - paid, h.total - n, u);
      } else {
        NoShares(h.vault, h.total);
      }
    }
  }

  /** When an unstake reverts: exactly when it is not due or nothing is requested, the vault is empty,
  or the request covers every share and the vault has fallen to the frozen value or below. */
  lemma {:induction false} RemoveRevertsExactlyWhen(f: Fund, i: nat, now: int, p: int)
    requires Inv(f) && i < |f.stakes| && Sync(f, i).Ok?
    ensures var g := Sync(f, i).value;
            RemoveStake(f, i, now, p).Err? <==>
              || now - f.stakes[i].requestTs < p
              || g.stakes[i].requestShares == 0
              || f.vault == 0
              || (g.stakes[i].requestShares == g.total && f.vault <= f.stakes[i].requestValue)
  {
    SyncKeepsInv(f, i);
    var g := Sync(f, i).value;
    var s := g.stakes[i];
    SharesLostBounded(g, s);
    var r := Redeem(g.vault, g.total, s.requestShares);
    if r == g.vault && g.vault > 0 && s.requestShares < g.total {
      MulStrict(s.requestShares, g.total, g.vault);
      assert false;
    }
  }

  // -------------------------------------------------------------------- a whole round trip

  /** After a mint the fund does not rebase again until its balance changes. */
  lemma {:induction false} NoRebaseAfterMint(h: Fund, i: nat, cost: nat, n: nat)
    requires i < |h.stakes| && n > 0 && cost > 0
    requires h.vault == 0 ==> h.total == 0 && cost == n
    requires h.vault > 0 ==> h.total > 0 && n * h.vault <= cost * h.total
    requires RebaseFund(h).base == h.base
    ensures RebaseFund(Mint(h, i, cost, n)) == Mint(h, i, cost, n)
  {
    hide Mint;
    var v, t := h.vault + cost, h.total + n;
    MintFields(h, i, cost, n);
    if h.vault > 0 && 0 < v < t {
      assert h.vault < h.total by { PriceAboveOne(h.vault, h.total, cost, n); }
      assert RebaseExpo(h.total, h.vault) == 0;
      ExpoZeroKept(h.vault, h.total, cost, n);
    }
  }

  lemma {:induction false} MintFields(h: Fund, i: nat, cost: nat, n: nat)
    requires i < |h.stakes|
    ensures var g := Mint(h, i, cost, n); g.vault == h.vault + cost && g.total == h.total + n && g.base == h.base
  {
  }

  /** Shares can only come to outnumber tokens if they already did. */
  lemma {:induction false} PriceAboveOne(v: nat, t: nat, cost: nat, n: nat)
    requires v > 0 && n * v <= cost * t && v + cost < t + n
    ensures v < t
  {
    if t <= v {
      MulMono(t, v, cost);
      MulCancel(n, cost, v);
    }
  }

  lemma {:induction false} ExpoZeroKept(v: nat, t: nat, cost: nat, n: nat)
    requires v > 0 && n * v <= cost * t && RebaseExpo(t, v) == 0
    ensures RebaseExpo(t + n, v + cost) == 0
  {
    Log10Brackets((t / 10) / v);
    DivDiv(t, 10, v);
    DivDiv(t + n, 10, v + cost);
    DivGe(t, 10 * v, 10);
    calc {
      (t + n) * v;
    == { Distrib(v, t, n); }
      t * v + n * v;
    <=
      t * v + cost * t;
    == { Distrib(t, v, cost); }
      t * (v + cost);
    < { MulStrict(t, 100 * v, v + cost); }
      (100 * v) * (v + cost);
    == { Assoc(100, v, v + cost); }
      (100 * (v + cost)) * v;
    }
    MulCancel(t + n, 100 * (v + cost), v);
    DivGe(t + n, 10 * (v + cost), 10);
  }

  /** Rebasing twice at one balance is rebasing once. */
  lemma {:induction false} SyncSettled(f: Fund, i: nat)
    requires Inv(f) && i < |f.stakes|
    ensures RebaseFund(Sync(f, i).value).base == Sync(f, i).value.base
  {
    SyncKeepsInv(f, i);
    var g := Sync(f, i).value;
    if 0 < f.vault < f.total {
      RebaseIdempotent(f.total, f.vault);
      if RebaseExpo(f.total, f.vault) > 0 {
        RebaseLeavesTenfold(f.total, f.vault);
      }
    }
  }

  lemma {:induction false} ZeroClaim(h: Fund, i: nat)
    requires Inv(h) && i < |h.stakes| && h.stakes[i].shares == 0
    ensures Claim(h, i) == 0
  {
    OneOfTotal(h.stakes, h.base, i);
    ClaimIs(h, i, h.vault, h.total, 0);
    NoShares(h.vault, h.total);
  }

  /** A request on a settled fund leaves it settled. */
  lemma {:induction false} RequestAfterSettled(f: Fund, i: nat, amount: nat, now: int)
    requires Inv(f) && RebaseFund(f) == f
    requires RequestRemove(f, i, amount, now).Ok?
    ensures var g := RequestRemove(f, i, amount, now).value;
            g.base == f.base && g.total == f.total && g.vault == f.vault && RebaseFund(g).base == g.base
  {
  }

  // ---------------------------------------------------------- runs, for a staker who is idle

  predicate ByOther(e: Event, j: nat)
  {
    match e
    case Add(i, _) => i != j
    case Request(i, _, _) => i != j
    case Cancel(i, _) => i != j
    case Remove(i, _, _) => i != j
    case _ => true
  }

  lemma {:induction false} StepKeepsIdleClaim(f: Fund, e: Event, j: nat)
    requires Inv(f) && j < |f.stakes|
    requires ByOther(e, j) && !e.Loss?
    ensures var g := Step(f, e);
            Inv(g) && j < |g.stakes| && Claim(f, j) <= Claim(g, j) + Slack(f, g)
  {
    StepKeepsInv(f, e);
    var g := Step(f, e);
    match e
    case Open =>
      ClaimIs(f, j, f.vault, f.total, Effective(f.stakes[j], f.base));
      ClaimIs(g, j, f.vault, f.total, Effective(f.stakes[j], f.base));
    case Add(i, x) =>
      if AddStake(f, i, x).Ok? { AddKeepsClaims(f, i, x, j); }
    case Request(i, x, now) =>
      if RequestRemove(f, i, x, now).Ok? { RequestKeepsClaims(f, i, x, now, j); }
    case Cancel(i, now) =>
      if CancelRequest(f, i, now).Ok? { CancelKeepsClaims(f, i, now, j); }
    case Remove(i, now, p) =>
      if RemoveStake(f, i, now, p).Ok? { RemoveKeepsClaims(f, i, now, p, j); }
    case Settle(x) => GrowKeepsClaim(f, g, j);
    case Donate(x) => GrowKeepsClaim(f, g, j);
  }

  lemma {:induction false} GrowKeepsClaim(f: Fund, g: Fund, j: nat)
    requires Inv(f) && Inv(g) && j < |f.stakes|
    requires g.stakes == f.stakes && g.base == f.base && f.vault <= g.vault
    requires f.total == 0 || g.total == f.total
    ensures Claim(f, j) <= Claim(g, j)
  {
    var u := Effective(f.stakes[j], f.base);
    ClaimIs(f, j, f.vault, f.total, u);
    ClaimIs(g, j, g.vault, g.total, u);
    if f.total > 0 {
      MulMono(f.vault, g.vault, f.total);
      RedeemPriceMono(f.vault, f.total, g.vault, g.total, u);
    }
  }

  /** Number of steps of a run that rebased the fund. */
  function Rebases(f: Fund, es: seq<Event>): (r: nat)
    decreases |es|
  {
    if es == [] then 0 else Slack(f, Step(f, es[0])) + Rebases(Step(f, es[0]), es[1..])
  }

  /** Over any run without a loss draw, whatever the others stake, unstake, cancel, settle or
  donate, an idle staker's claim falls by at most one unit per rebase. */
  lemma {:induction false} RunKeepsIdleClaim(f: Fund, es: seq<Event>, j: nat)
    requires Inv(f) && j < |f.stakes|
    requires forall e :: e in es ==> ByOther(e, j) && !e.Loss?
    ensures Inv(Run(f, es)) && j < |Run(f, es).stakes|
    ensures Claim(f, j) <= Claim(Run(f, es), j) + Rebases(f, es)
    decreases |es|
  {
    if es == [] {
    } else {
      StepKeepsIdleClaim(f, es[0], j);
      RunKeepsIdleClaim(Step(f, es[0]), es[1..], j);
    }
  }

  /** In every run the claims of all stakers together stay within the vault. */
  lemma {:induction false} RunClaimsBacked(f: Fund, es: seq<Event>)
    requires Inv(f)
    ensures Inv(Run(f, es))
    ensures Claims(Run(f, es), |Run(f, es).stakes|) <= Run(f, es).vault
  {
    RunKeepsInv(f, es);
    ClaimsAtMostVault(Run(f, es));
  }

  // ------------------------------------------------- a stake, its escrow and its unstake

  lemma {:induction false} RedeemMono(v: nat, t: nat, n: nat, m: nat)
    requires n <= m <= t
    ensures Redeem(v, t, n) <= Redeem(v, t, m)
  {
    if t > 0 {
      hide Redeem;
      var a, b := Redeem(v, t, n), Redeem(v, t, m);
      MulMono(n, m, v);
      Distrib(t, b, 1);
      MulCancel(a, b + 1, t);
    } else {
      NoShares(v, t);
    }
  }

  /** The value a request freezes is at most the staker's claim. */
  lemma {:induction false} FrozenWithinClaim(f: Fund, i: nat, amount: nat, now: int)
    requires Inv(f) && RequestRemove(f, i, amount, now).Ok?
    ensures var g := RequestRemove(f, i, amount, now).value;
            Inv(g) && i < |g.stakes| && g.stakes[i].requestValue <= Claim(g, i)
  {
    hide Redeem, SharesFor;
    RequestKeepsInv(f, i, amount, now);
    var n := SharesFor(amount, f.total, f.vault).value;
    var s0 := f.stakes[i].(requestShares := n);
    TotalUpdate(f.stakes, f.base, i, s0);
    var f0 := f.(stakes := f.stakes[i := s0]);
    SyncKeepsInv(f0, i);
    var g := RequestRemove(f, i, amount, now).value;
    var s := g.stakes[i];
    ClaimIs(g, i, g.vault, g.total, s.shares);
    RedeemMono(g.vault, g.total, s.requestShares, s.shares);
  }

  /** What the others do leaves a stake's own account alone; it is rebased when next used. */
  lemma {:induction false} StepKeepsStake(f: Fund, e: Event, i: nat)
    requires Inv(f) && i < |f.stakes| && ByOther(e, i)
    ensures i < |Step(f, e).stakes| && Step(f, e).stakes[i] == f.stakes[i]
  {
    hide Redeem, SharesFor, DepositQuote, SharesLost, Sync;
    match e
    case Add(j, _) => if j < |f.stakes| { SyncKeepsOthers(Seeded(f), j, i); }
    case Request(j, x, _) =>
      if j < |f.stakes| && SharesFor(x, f.total, f.vault).Some? {
        var s0 := f.stakes[j].(requestShares := SharesFor(x, f.total, f.vault).value);
        SyncKeepsOthers(f.(stakes := f.stakes[j := s0]), j, i);
      }
    case Cancel(j, _) => if j < |f.stakes| { SyncKeepsOthers(f, j, i); }
    case Remove(j, _, _) => if j < |f.stakes| { SyncKeepsOthers(f, j, i); }
    case _ =>
  }

  lemma {:induction false} SyncKeepsOthers(f: Fund, j: nat, i: nat)
    requires j < |f.stakes| && i < |f.stakes| && i != j
    ensures Sync(f, j).Ok? ==> |Sync(f, j).value.stakes| == |f.stakes| && Sync(f, j).value.stakes[i] == f.stakes[i]
  {
    hide RebaseExpo, Shift;
  }

  lemma {:induction false} RunKeepsStake(f: Fund, es: seq<Event>, i: nat)
    requires Inv(f) && i < |f.stakes|
    requires forall e :: e in es ==> ByOther(e, i)
    ensures Inv(Run(f, es)) && i < |Run(f, es).stakes| && Run(f, es).stakes[i] == f.stakes[i]
    decreases |es|
  {
    hide Step;
    if es == [] {
    } else {
      StepKeepsInv(f, es[0]);
      StepKeepsStake(f, es[0], i);
      RunKeepsStake(Step(f, es[0]), es[1..], i);
    }
  }

  /** Stake, ask to unstake any part, and unstake after an escrow in which the others may do
  anything, gains, losses and rebases included: the staker is never paid more than the stake cost
  and what was claimed before, and a staker who held no shares never more than the cost. */
  lemma {:induction false} RoundTripNeverProfits(f: Fund, i: nat, requested: nat, amount: nat, t1: int,
                                                 es: seq<Event>, t2: int, p: int)
    requires Inv(f) && i < |f.stakes|
    requires AddStake(f, i, requested).Ok?
    requires RequestRemove(AddStake(f, i, requested).value.0, i, amount, t1).Ok?
    requires forall e :: e in es ==> ByOther(e, i)
    requires RemoveStake(Run(RequestRemove(AddStake(f, i, requested).value.0, i, amount, t1).value, es), i, t2, p).Ok?
    ensures var (f1, cost) := AddStake(f, i, requested).value;
            var f2 := RequestRemove(f1, i, amount, t1).value;
            var (f3, paid) := RemoveStake(Run(f2, es), i, t2, p).value;
            && cost <= requested && f2.vault == f.vault + cost && f3.vault == Run(f2, es).vault - paid
            && paid <= Claim(f, i) + cost + Slack(f, f1)
            && (f.stakes[i].shares == 0 ==> paid <= cost)
  {
    hide Redeem, DepositQuote, SharesFor, Claim, Sync, SharesLost, RequestRemove, RemoveStake;
    var f1 := AddStake(f, i, requested).value.0;
    var h, cost, n := AddSplits(f, i, requested);
    AddKeepsClaims(f, i, requested, i);
    if f.stakes[i].shares == 0 {
      ZeroClaim(h, i);
      MintKeepsClaims(h, i, cost, n, i);
    }
    // the request follows the stake at the same balance, so no rebase comes between them
    SyncSettled(Seeded(f), i);
    NoRebaseAfterMint(h, i, cost, n);
    var f2 := RequestRemove(f1, i, amount, t1).value;
    RequestKeepsClaims(f1, i, amount, t1, i);
    RequestAfterSettled(f1, i, amount, t1);
    FrozenWithinClaim(f1, i, amount, t1);
    // and the frozen value caps the payout, whatever happens in between
    RunKeepsStake(f2, es, i);
    RemoveKeepsClaims(Run(f2, es), i, t2, p, i);
  }
}
