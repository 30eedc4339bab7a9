/** The insurance fund as a state machine on values: stakes with lazily applied rebases,
escrowed unstake requests, revenue settles, donations and loss draws.

Every operation of the program is one function here; an `Err` is a transaction that
reverts and leaves the fund as it was. */
module InsuranceFund {
  import opened Arith
  import opened Shares
  import opened Wrappers

  datatype Error =
    | NoStakeAccount
    | RequestInProgress
    | NoRequestInProgress
    | InvalidForNewStakes
    | InvalidRebase
    | DepositMintsZeroShares
    | RequestTooSmall
    | InsufficientShares
    | InvalidUnstakeSize
    | InvalidShares
    | TooFast
    | NothingRequested
    | VaultMustRemainPositive

  /** One staker's account. `base` is the rebase exponent its shares are written in. */
  datatype Stake = Stake(shares: nat, base: nat, requestShares: nat, requestValue: nat, requestTs: int)

  /** `snapshot` is the lowest vault balance since the last revenue settle. */
  datatype Fund = Fund(vault: nat, total: nat, user: nat, base: nat, snapshot: nat, stakes: seq<Stake>)

  // ---------------------------------------------------------------------- operations

  function RebaseFund(f: Fund): (r: Fund)
  {
    var g :=
      if 0 < f.vault < f.total then
        var e := RebaseExpo(f.total, f.vault);
        f.(total := Shift(f.total, e), user := Shift(f.user, e), base := f.base + e)
      else f;
    if g.vault != 0 && g.total == 0 then g.(total := g.vault) else g
  }

  function RebaseStake(s: Stake, base: nat): (r: Result<Stake, Error>)
  {
    if s.base == base then Ok(s)
    else if s.base > base then Err(InvalidRebase)
    else
      var e := base - s.base;
      Ok(s.(shares := Shift(s.shares, e), base := base, requestShares := Shift(s.requestShares, e)))
  }

  /** Both rebases, in the order every stake instruction applies them. */
  function Sync(f: Fund, i: nat): (r: Result<Fund, Error>)
    requires i < |f.stakes|
  {
    var g := RebaseFund(f);
    var s :- RebaseStake(g.stakes[i], g.base);
    Ok(g.(stakes := g.stakes[i := s]))
  }

  /** `add_insurance_fund_stake`; also returns what is actually charged. */
  function AddStake(f: Fund, i: nat, requested: nat): (r: Result<(Fund, nat), Error>)
  {
    if i >= |f.stakes| then Err(NoStakeAccount)
    else if f.stakes[i].requestShares != 0 || f.stakes[i].requestValue != 0 then Err(RequestInProgress)
    else if f.vault == 0 && f.total != 0 then Err(InvalidForNewStakes)
    else
      var seeded := if f.total == 0 && f.vault > 0 then f.(total := f.vault) else f;
      var g :- Sync(seeded, i);
      match DepositQuote(requested, g.total, g.vault)
      case None => Err(InvalidShares)
      case Some((cost, n)) =>
        if n == 0 then Err(DepositMintsZeroShares) else Ok((Mint(g, i, cost, n), cost))
  }

  function Mint(g: Fund, i: nat, cost: nat, n: nat): (r: Fund)
    requires i < |g.stakes|
  {
    var s := g.stakes[i];
    g.(vault := g.vault + cost, total := g.total + n, user := g.user + n,
       stakes := g.stakes[i := s.(shares := s.shares + n)])
  }

  /** `request_remove_insurance_fund_stake`: freeze the exit value of `amount` worth of shares. */
  function RequestRemove(f: Fund, i: nat, amount: nat, now: int): (r: Result<Fund, Error>)
  {
    if i >= |f.stakes| then Err(NoStakeAccount)
    else if f.stakes[i].requestShares != 0 then Err(RequestInProgress)
    else
      match SharesFor(amount, f.total, f.vault)
      case None => Err(InvalidShares)
      case Some(n) =>
        var s0 := f.stakes[i];
        if n == 0 then Err(RequestTooSmall)
        else if s0.base != f.base then Err(InvalidRebase)
        else if s0.shares < n then Err(InsufficientShares)
        else
          var g :- Sync(f.(stakes := f.stakes[i := s0.(requestShares := n)]), i);
          var s := g.stakes[i];
          if s.requestShares > s.shares then Err(InvalidUnstakeSize)
          else if s.requestShares > g.total then Err(InvalidShares)
          else
            var value := Min(Redeem(g.vault, g.total, s.requestShares), SatSub(g.vault, 1));
            if value != 0 && value >= g.vault then Err(InvalidUnstakeSize)
            else Ok(g.(stakes := g.stakes[i := s.(requestValue := value, requestTs := now)]))
  }

  /** Shares a cancel forfeits (`calculate_if_shares_lost`): what a withdrawal at the frozen
  value followed by a restake at the current price would not buy back. */
  function SharesLost(g: Fund, s: Stake): (r: Result<nat, Error>)
  {
    var n := s.requestShares;
    if n >= g.total then Ok(0)
    else if Redeem(g.vault, g.total, n) > s.requestValue then
      match SharesFor(s.requestValue, g.total - n, g.vault - s.requestValue)
      case None => Err(InvalidShares)
      case Some(m) => if m > n then Err(InvalidShares) else Ok(n - m)
    else Ok(0)
  }

  /** `cancel_request_remove_insurance_fund_stake`. */
  function CancelRequest(f: Fund, i: nat, now: int): (r: Result<Fund, Error>)
  {
    if i >= |f.stakes| then Err(NoStakeAccount)
    else if f.stakes[i].requestShares == 0 then Err(NoRequestInProgress)
    else
      var g :- Sync(f, i);
      var s := g.stakes[i];
      var lost :- SharesLost(g, s);
      if lost > s.shares || lost > g.total || lost > g.user then Err(InvalidShares)
      else
        Ok(g.(total := g.total - lost, user := g.user - lost,
              stakes := g.stakes[i := s.(shares := s.shares - lost, requestShares := 0,
                                         requestValue := 0, requestTs := now)]))
  }

  /** `remove_insurance_fund_stake`; also returns what is paid out. */
  function RemoveStake(f: Fund, i: nat, now: int, unstakingPeriod: int): (r: Result<(Fund, nat), Error>)
  {
    if i >= |f.stakes| then Err(NoStakeAccount)
    else if now - f.stakes[i].requestTs < unstakingPeriod then Err(TooFast)
    else
      var g :- Sync(f, i);
      var s := g.stakes[i];
      var n := s.requestShares;
      if n == 0 then Err(NothingRequested)
      else if s.shares < n then Err(InsufficientShares)
      else if n > g.total || n > g.user then Err(InvalidShares)
      else
        var lost :- SharesLost(g, s);
        var paid := Min(Redeem(g.vault, g.total, n), s.requestValue);
        if g.vault - paid == 0 then Err(VaultMustRemainPositive)
        else
          Ok((g.(vault := g.vault - paid, total := g.total - n, user := g.user - n,
                 snapshot := Min(g.snapshot, g.vault - paid),
                 stakes := g.stakes[i := Stake(s.shares - n, s.base, 0, 0, now)]), paid))
  }

  /** Revenue arriving from the spot vault; seeds shares one to one while none exist. */
  function SettleRevenue(f: Fund, amount: nat): (r: Fund)
  {
    var v := f.vault + amount;
    f.(vault := v, snapshot := v, total := if f.total == 0 then v else f.total)
  }

  /** A loss draw. All but one unit of the vault can be taken. */
  function Draw(f: Fund, wanted: nat): (r: Fund)
  {
    var paid := Min(wanted, SatSub(f.vault, 1));
    f.(vault := f.vault - paid, snapshot := Min(f.snapshot, f.vault - paid))
  }

  // ---------------------------------------------------------------------------- runs

  datatype Event =
    | Open
    | Add(who: nat, amount: nat)
    | Request(who: nat, amount: nat, now: int)
    | Cancel(who: nat, now: int)
    | Remove(who: nat, now: int, unstakingPeriod: int)
    | Settle(amount: nat)
    | Donate(amount: nat)
    | Loss(amount: nat)

  function Step(f: Fund, e: Event): (r: Fund)
  {
    match e
    case Open => f.(stakes := f.stakes + [Stake(0, 0, 0, 0, 0)])
    case Add(i, x) => (match AddStake(f, i, x) case Ok(p) => p.0 case Err(_) => f)
    case Request(i, x, now) => (match RequestRemove(f, i, x, now) case Ok(g) => g case Err(_) => f)
    case Cancel(i, now) => (match CancelRequest(f, i, now) case Ok(g) => g case Err(_) => f)
    case Remove(i, now, p) => (match RemoveStake(f, i, now, p) case Ok(q) => q.0 case Err(_) => f)
    case Settle(x) => SettleRevenue(f, x)
    case Donate(x) => f.(vault := f.vault + x)
    case Loss(x) => Draw(f, x)
  }

  function Run(f: Fund, es: seq<Event>): (r: Fund)
    decreases |es|
  {
    if es == [] then f else Run(Step(f, es[0]), es[1..])
  }

  // ----------------------------------------------------------------------- invariant

  /** A stake's shares written in the fund's current base. */
  function Effective(s: Stake, base: nat): (r: nat)
    requires s.base <= base
    ensures r <= s.shares
    ensures s.base == base ==> r == s.shares
  {
    Shift(s.shares, base - s.base)
  }

  predicate StakesOk(ss: seq<Stake>, base: nat)
  {
    forall i :: 0 <= i < |ss| ==> ss[i].base <= base && ss[i].requestShares <= ss[i].shares
  }

  function Total(ss: seq<Stake>, base: nat): (r: nat)
    requires StakesOk(ss, base)
  {
    if ss == [] then 0 else Effective(ss[0], base) + Total(ss[1..], base)
  }

  /** Every staker's shares are backed by the user counter, and the user counter by the total. */
  predicate Inv(f: Fund)
  {
    && StakesOk(f.stakes, f.base)
    && Total(f.stakes, f.base) <= f.user <= f.total
    && f.snapshot <= f.vault
  }

  /** What staker `i` could redeem right now. */
  function Claim(f: Fund, i: nat): (r: nat)
    requires Inv(f) && i < |f.stakes|
  {
    OneOfTotal(f.stakes, f.base, i);
    Redeem(f.vault, f.total, Effective(f.stakes[i], f.base))
  }

  function Claims(f: Fund, k: nat): (r: nat)
    requires Inv(f) && k <= |f.stakes|
  {
    if k == 0 then 0 else Claims(f, k - 1) + Claim(f, k - 1)
  }

  // ------------------------------------------------------------------ sums of shares

  lemma {:induction false} OneOfTotal(ss: seq<Stake>, base: nat, i: nat)
    requires StakesOk(ss, base) && i < |ss|
    ensures Effective(ss[i], base) <= Total(ss, base)
  {
    if i > 0 { OneOfTotal(ss[1..], base, i - 1); }
  }

  lemma {:induction false} TotalUpdate(ss: seq<Stake>, base: nat, i: nat, s: Stake)
    requires StakesOk(ss, base) && i < |ss|
    requires s.base <= base && s.requestShares <= s.shares
    ensures StakesOk(ss[i := s], base)
    ensures Total(ss[i := s], base) == Total(ss, base) - Effective(ss[i], base) + Effective(s, base)
  {
    if i == 0 {
      assert ss[0 := s][1..] == ss[1..];
    } else {
      assert ss[i := s][1..] == ss[1..][i - 1 := s];
      TotalUpdate(ss[1..], base, i - 1, s);
    }
  }

  lemma {:induction false} TotalAppend(ss: seq<Stake>, base: nat, s: Stake)
    requires StakesOk(ss, base) && s.base <= base && s.requestShares <= s.shares
    ensures StakesOk(ss + [s], base)
    ensures Total(ss + [s], base) == Total(ss, base) + Effective(s, base)
  {
    if ss == [] {
      assert (ss + [s])[1..] == [];
    } else {
      assert (ss + [s])[1..] == ss[1..] + [s];
      TotalAppend(ss[1..], base, s);
    }
  }

  /** Rebasing lazily or at once gives a stake the same shares. */
  lemma {:induction false} EffectiveRebased(s: Stake, base: nat, e: nat)
    requires s.base <= base
    ensures Effective(s, base + e) == Shift(Effective(s, base), e)
  {
    ShiftShift(s.shares, base - s.base, e);
    assert base + e - s.base == (base - s.base) + e;
  }

  lemma {:induction false} TotalRebased(ss: seq<Stake>, base: nat, e: nat)
    requires StakesOk(ss, base)
    ensures StakesOk(ss, base + e)
    ensures Total(ss, base + e) <= Shift(Total(ss, base), e)
  {
    if ss == [] {
    } else {
      EffectiveRebased(ss[0], base, e);
      TotalRebased(ss[1..], base, e);
      ShiftSum(Effective(ss[0], base), Total(ss[1..], base), e);
    }
  }

  // -------------------------------------------------------------- the invariant holds

  lemma {:induction false} RebaseFundKeepsInv(f: Fund)
    requires Inv(f)
    ensures var g := RebaseFund(f);
            && Inv(g) && g.vault == f.vault && g.snapshot == f.snapshot
            && g.stakes == f.stakes && f.base <= g.base
            && (f.vault > 0 ==> g.total > 0)
  {
    if 0 < f.vault < f.total {
      var e := RebaseExpo(f.total, f.vault);
      TotalRebased(f.stakes, f.base, e);
      ShiftMono(Total(f.stakes, f.base), f.user, e);
      ShiftMono(f.user, f.total, e);
    }
  }

  lemma {:induction false} SyncKeepsInv(f: Fund, i: nat)
    requires Inv(f) && i < |f.stakes|
    ensures Sync(f, i).Ok?
    ensures var g := Sync(f, i).value;
            && Inv(g) && g.vault == f.vault && g.snapshot == f.snapshot && |g.stakes| == |f.stakes|
            && g.stakes[i].base == g.base && f.base <= g.base
            && g.total == RebaseFund(f).total && g.user == RebaseFund(f).user && g.base == RebaseFund(f).base
            && g.stakes[i].shares == Effective(f.stakes[i], g.base)
            && g.stakes[i].requestValue == f.stakes[i].requestValue
            && (forall j :: 0 <= j < |f.stakes| && j != i ==> g.stakes[j] == f.stakes[j])
            && (f.vault > 0 ==> g.total > 0)
            && g.stakes[i].shares <= g.user
  {
    RebaseFundKeepsInv(f);
    var g := RebaseFund(f);
    var s := g.stakes[i];
    var s' := RebaseStake(s, g.base).value;
    ShiftMono(s.requestShares, s.shares, g.base - s.base);
    TotalUpdate(g.stakes, g.base, i, s');
    OneOfTotal(g.stakes[i := s'], g.base, i);
  }

  lemma {:induction false} AddKeepsInv(f: Fund, i: nat, requested: nat)
    requires Inv(f)
    ensures var r := AddStake(f, i, requested);
            r.Ok? ==> Inv(r.value.0) && r.value.0.vault >= f.vault && |r.value.0.stakes| == |f.stakes|
  {
    hide DepositQuote;
    var r := AddStake(f, i, requested);
    if r.Ok? {
      var seeded := if f.total == 0 && f.vault > 0 then f.(total := f.vault) else f;
      SyncKeepsInv(seeded, i);
      var g := Sync(seeded, i).value;
      var (cost, n) := DepositQuote(requested, g.total, g.vault).value;
      MintKeepsInv(g, i, cost, n);
    }
  }

  lemma {:induction false} MintKeepsInv(g: Fund, i: nat, cost: nat, n: nat)
    requires Inv(g) && i < |g.stakes| && g.stakes[i].base == g.base
    ensures Inv(Mint(g, i, cost, n))
  {
    var s := g.stakes[i];
    TotalUpdate(g.stakes, g.base, i, s.(shares := s.shares + n));
  }

  lemma {:induction false} RequestKeepsInv(f: Fund, i: nat, amount: nat, now: int)
    requires Inv(f)
    ensures var r := RequestRemove(f, i, amount, now);
            r.Ok? ==> Inv(r.value) && r.value.vault == f.vault && |r.value.stakes| == |f.stakes|
  {
    hide SharesFor, Redeem;
    var r := RequestRemove(f, i, amount, now);
    if r.Ok? {
      var n := SharesFor(amount, f.total, f.vault).value;
      var s0 := f.stakes[i].(requestShares := n);
      TotalUpdate(f.stakes, f.base, i, s0);
      var f0 := f.(stakes := f.stakes[i := s0]);
      SyncKeepsInv(f0, i);
      var g := Sync(f0, i).value;
      TotalUpdate(g.stakes, g.base, i, r.value.stakes[i]);
    }
  }

  /** The forfeit never exceeds the request and never fails its own validation. */
  lemma {:induction false} SharesLostBounded(g: Fund, s: Stake)
    ensures SharesLost(g, s).Ok? && SharesLost(g, s).value <= s.requestShares
  {
    if s.requestShares < g.total && Redeem(g.vault, g.total, s.requestShares) > s.requestValue {
      RestakeBounded(g.vault, g.total, s.requestShares, s.requestValue);
    }
  }

  lemma {:induction false} CancelKeepsInv(f: Fund, i: nat, now: int)
    requires Inv(f)
    ensures var r := CancelRequest(f, i, now);
            r.Ok? ==> Inv(r.value) && r.value.vault == f.vault && |r.value.stakes| == |f.stakes|
  {
    hide SharesLost;
    var r := CancelRequest(f, i, now);
    if r.Ok? {
      SyncKeepsInv(f, i);
      var g := Sync(f, i).value;
      TotalUpdate(g.stakes, g.base, i, r.value.stakes[i]);
    }
  }

  lemma {:induction false} RemoveKeepsInv(f: Fund, i: nat, now: int, unstakingPeriod: int)
    requires Inv(f)
    ensures var r := RemoveStake(f, i, now, unstakingPeriod);
            r.Ok? ==> Inv(r.value.0) && r.value.0.vault >= 1 && |r.value.0.stakes| == |f.stakes|
  {
    hide SharesLost, Redeem;
    var r := RemoveStake(f, i, now, unstakingPeriod);
    if r.Ok? {
      SyncKeepsInv(f, i);
      var g := Sync(f, i).value;
      TotalUpdate(g.stakes, g.base, i, r.value.0.stakes[i]);
    }
  }

  lemma {:induction false} OpenKeepsInv(f: Fund)
    requires Inv(f)
    ensures Inv(f.(stakes := f.stakes + [Stake(0, 0, 0, 0, 0)]))
  {
    hide Shift, Total, StakesOk;
    TotalAppend(f.stakes, f.base, Stake(0, 0, 0, 0, 0));
  }

  lemma {:induction false} StepKeepsInv(f: Fund, e: Event)
    requires Inv(f)
    ensures Inv(Step(f, e))
    ensures f.vault >= 1 ==> Step(f, e).vault >= 1
    ensures |f.stakes| <= |Step(f, e).stakes|
  {
    hide AddStake, RequestRemove, CancelRequest, RemoveStake, StakesOk, Total, Effective;
    match e
    case Open => OpenKeepsInv(f);
    case Add(i, x) =>
      AddKeepsInv(f, i, x);
    case Request(i, x, now) => RequestKeepsInv(f, i, x, now);
    case Cancel(i, now) => CancelKeepsInv(f, i, now);
    case Remove(i, now, p) => RemoveKeepsInv(f, i, now, p);
    case Settle(_) =>
    case Donate(_) =>
    case Loss(_) =>
  }

  /** In every run the share books stay coherent, and a funded vault is never emptied. */
  lemma {:induction false} RunKeepsInv(f: Fund, es: seq<Event>)
    requires Inv(f)
    ensures Inv(Run(f, es))
    ensures f.vault >= 1 ==> Run(f, es).vault >= 1
    ensures |f.stakes| <= |Run(f, es).stakes|
    decreases |es|
  {
    if es == [] {
    } else {
      StepKeepsInv(f, es[0]);
      RunKeepsInv(Step(f, es[0]), es[1..]);
    }
  }

  /** What all stakers together could redeem never exceeds the vault. */
  lemma {:induction false} ClaimsWithin(f: Fund, k: nat)
    requires Inv(f) && k <= |f.stakes| && f.total > 0
    ensures Total(f.stakes[..k], f.base) <= Total(f.stakes, f.base)
    ensures f.total * Claims(f, k) <= f.vault * Total(f.stakes[..k], f.base)
  {
    hide Redeem, Effective;
    TotalPrefix(f.stakes, f.base, k);
    if k > 0 {
      ClaimsWithin(f, k - 1);
      var c := Effective(f.stakes[k - 1], f.base);
      assert f.stakes[..k] == f.stakes[..k - 1] + [f.stakes[k - 1]];
      TotalAppend(f.stakes[..k - 1], f.base, f.stakes[k - 1]);
      Distrib(f.vault, Total(f.stakes[..k - 1], f.base), c);
      Distrib(f.total, Claims(f, k - 1), Claim(f, k - 1));
    }
  }

  lemma {:induction false} TotalPrefix(ss: seq<Stake>, base: nat, k: nat)
    requires StakesOk(ss, base) && k <= |ss|
    ensures StakesOk(ss[..k], base) && Total(ss[..k], base) <= Total(ss, base)
  {
    if k > 0 {
      assert ss[..k][1..] == ss[1..][..k - 1];
      TotalPrefix(ss[1..], base, k - 1);
    }
  }

  lemma {:induction false} ClaimsAtMostVault(f: Fund)
    requires Inv(f)
    ensures Claims(f, |f.stakes|) <= f.vault
  {
    if f.total > 0 {
      ClaimsWithin(f, |f.stakes|);
      assert f.stakes[..|f.stakes|] == f.stakes;
      MulMono(Total(f.stakes, f.base), f.total, f.vault);
      MulCancel(Claims(f, |f.stakes|), f.vault, f.total);
    } else {
      NoClaims(f, |f.stakes|);
    }
  }

  lemma {:induction false} NoClaims(f: Fund, k: nat)
    requires Inv(f) && f.total == 0 && k <= |f.stakes|
    ensures Claims(f, k) == 0
  {
    if k > 0 { NoClaims(f, k - 1); }
  }

  // -------------------------------------------------------------- the settle-cap snapshot

  lemma {:induction false} RunSplit(f: Fund, es: seq<Event>, k: nat)
    requires k <= |es|
    ensures Run(f, es) == Run(Run(f, es[..k]), es[k..])
    decreases |es|
  {
    if k > 0 {
      assert es[..k][1..] == es[1..][..k - 1];
      assert es[1..][k - 1..] == es[k..];
      RunSplit(Step(f, es[0]), es[1..], k - 1);
    } else {
      assert es[0..] == es;
    }
  }

  lemma {:induction false} SnapshotNeverRises(f: Fund, es: seq<Event>)
    requires forall e :: e in es ==> !e.Settle?
    ensures Run(f, es).snapshot <= f.snapshot
    decreases |es|
  {
    if es == [] {
    } else {
      StepKeepsSnapshot(f, es[0]);
      SnapshotNeverRises(Step(f, es[0]), es[1..]);
    }
  }

  lemma {:induction false} StepKeepsSnapshot(f: Fund, e: Event)
    requires !e.Settle?
    ensures Step(f, e).snapshot <= f.snapshot
  {
    hide DepositQuote, SharesFor, Redeem, SharesLost, RebaseStake;
  }

  /** Between settles the snapshot that caps the next settle is at most every balance the
  vault has held, so tokens sent in just before a settle do not raise the cap. */
  lemma {:induction false} SnapshotIsLowest(f: Fund, es: seq<Event>, k: nat)
    requires Inv(f) && k <= |es|
    requires forall e :: e in es ==> !e.Settle?
    ensures Run(f, es).snapshot <= Run(f, es[..k]).vault
  {
    RunSplit(f, es, k);
    RunKeepsInv(f, es[..k]);
    SnapshotNeverRises(Run(f, es[..k]), es[k..]);
  }
}
