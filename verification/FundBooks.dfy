/** The insurance fund's books, operation by operation: which shares and tokens move, from where to
where, how many, and that nothing else does. */
module FundBooks {
  import opened Arith
  import opened Shares
  import opened InsuranceFund
  import opened FundValue
  import opened Wrappers

  /** `after` is `before` without its last `e` decimal digits. */
  predicate Dropped(before: nat, after: nat, e: nat)
  {
    Pow10(e) * after <= before < Pow10(e) * after + Pow10(e)
  }

  lemma {:induction false} ShiftDrops(n: nat, e: nat)
    ensures Dropped(n, Shift(n, e), e)
  {
    DivBounds(n, Pow10(e));
  }

  lemma {:induction false} NoneDropped(n: nat)
    ensures Dropped(n, n, 0)
  {
  }

  /** The tokens `n` of `total` shares are worth, rounded down. */
  predicate Worth(vault: nat, total: nat, n: nat, tokens: nat)
  {
    total * tokens <= vault * n < total * tokens + total
  }

  /** `h` is `f` brought up to date for staker `i`: the fund's totals lose the same digits, which
  leaves fewer than a hundred shares per token, and at least ten if any digit is lost; shares are
  seeded one to one for a vault that has none; the stake loses every digit it has not lost yet; and
  nothing else changes. */
  predicate UpToDate(f: Fund, h: Fund, i: nat)
    requires i < |f.stakes|
  {
    && f.base <= h.base && f.stakes[i].base <= h.base
    && h.vault == f.vault && h.snapshot == f.snapshot
    && Dropped(f.user, h.user, h.base - f.base)
    && (if f.total == 0 && f.vault > 0 then h.total == f.vault else Dropped(f.total, h.total, h.base - f.base))
    && (f.vault > 0 ==> 0 < h.total < 100 * f.vault)
    && (h.base != f.base ==> 10 * f.vault <= h.total && 0 < f.vault < f.total)
    && |h.stakes| == |f.stakes| && h.stakes == f.stakes[i := h.stakes[i]]
    && Dropped(f.stakes[i].shares, h.stakes[i].shares, h.base - f.stakes[i].base)
    && Dropped(f.stakes[i].requestShares, h.stakes[i].requestShares, h.base - f.stakes[i].base)
    && h.stakes[i].base == h.base
    && h.stakes[i].requestValue == f.stakes[i].requestValue
    && h.stakes[i].requestTs == f.stakes[i].requestTs
  }

  lemma {:induction false} RebaseFundBooks(f: Fund)
    requires Inv(f)
    ensures var h := RebaseFund(f);
            && f.base <= h.base && h.vault == f.vault && h.snapshot == f.snapshot && h.stakes == f.stakes
            && Dropped(f.user, h.user, h.base - f.base)
            && (if f.total == 0 && f.vault > 0 then h.total == f.vault else Dropped(f.total, h.total, h.base - f.base))
            && (f.vault > 0 ==> 0 < h.total < 100 * f.vault)
            && (h.base != f.base ==> 10 * f.vault <= h.total && 0 < f.vault < f.total)
  {
    hide Dropped, RebaseExpo, Shift;
    if 0 < f.vault < f.total {
      var e := RebaseExpo(f.total, f.vault);
      ShiftDrops(f.total, e);
      ShiftDrops(f.user, e);
      RebaseLeavesUnderHundredfold(f.total, f.vault);
      if e > 0 { RebaseLeavesTenfold(f.total, f.vault); }
    } else {
      NoneDropped(f.user);
      NoneDropped(f.total);
    }
  }

  /** The lazy rebase every stake instruction starts with. */
  lemma {:induction false} SyncBooks(f: Fund, i: nat)
    requires Inv(f) && i < |f.stakes|
    ensures Sync(f, i).Ok? && UpToDate(f, Sync(f, i).value, i)
  {
    hide Dropped, RebaseFund, Shift;
    RebaseFundBooks(f);
    SyncKeepsInv(f, i);
    var s, base := f.stakes[i], RebaseFund(f).base;
    ShiftDrops(s.shares, base - s.base);
    ShiftDrops(s.requestShares, base - s.base);
    NoneDropped(s.shares);
    NoneDropped(s.requestShares);
  }

  // ------------------------------------------------------------------------------ unstaking

  /** An unstake pays the lesser of the frozen value and what the requested shares are worth now,
  burns exactly those shares, clears the request, and leaves the staker everything else. */
  lemma {:induction false} RemoveMovesBooks(f: Fund, i: nat, now: int, p: int) returns (h: Fund)
    requires Inv(f) && RemoveStake(f, i, now, p).Ok?
    ensures i < |f.stakes| && UpToDate(f, h, i) && now - f.stakes[i].requestTs >= p
    ensures var (g, paid) := RemoveStake(f, i, now, p).value; var s := h.stakes[i]; var n := s.requestShares;
            && 0 < n <= s.shares && n <= h.user && n <= h.total && paid < h.vault
            && g == Fund(h.vault - paid, h.total - n, h.user - n, h.base, Min(h.snapshot, h.vault - paid),
                         h.stakes[i := Stake(s.shares - n, h.base, 0, 0, now)])
            && paid <= s.requestValue
            && h.total * paid <= h.vault * n
            && (paid < s.requestValue ==> Worth(h.vault, h.total, n, paid))
  {
    hide Redeem, SharesLost;
    h := Sync(f, i).value;
    SyncBooks(f, i);
    SyncKeepsInv(f, i);
    var paid, n := RemoveStake(f, i, now, p).value.1, h.stakes[i].requestShares;
    MulMono(paid, Redeem(h.vault, h.total, n), h.total);
  }

  /** What unstaking costs the staker: the payout and the remaining claim fall short of the old claim
  by no more than the requested shares gained since the value was frozen, one unit of rounding and
  one for a rebase. */
  lemma {:induction false} RemoveReturnsClaim(f: Fund, i: nat, now: int, p: int, worth: nat)
    requires Inv(f) && RemoveStake(f, i, now, p).Ok? && i < |f.stakes| && Sync(f, i).Ok?
    requires var h := Sync(f, i).value; Worth(h.vault, h.total, h.stakes[i].requestShares, worth)
    ensures var (g, paid) := RemoveStake(f, i, now, p).value;
            && Inv(g) && i < |g.stakes|
            && Claim(f, i) <= Claim(g, i) + paid + SatSub(worth, f.stakes[i].requestValue) + 1 + Slack(f, g)
  {
    hide Redeem, SharesLost, Claim, UpToDate, Sync;
    RemoveKeepsInv(f, i, now, p);
    var h := RemoveMovesUpToDate(f, i, now, p);
    SyncKeepsInv(f, i);
    SyncKeepsClaims(f, i, i);
    var (g, paid) := RemoveStake(f, i, now, p).value;
    var n, own := h.stakes[i].requestShares, h.stakes[i].shares;
    WorthIsRedeem(h.vault, h.total, n, worth);
    ClaimIs(h, i, h.vault, h.total, own);
    ClaimIs(g, i, h.vault - paid, h.total - n, own - n);
    BurnReturns(h.vault, h.total, paid, n, own);
  }

  /** The same facts about an unstake, with the stake's own numbers only. */
  lemma {:induction false} RemoveMovesUpToDate(f: Fund, i: nat, now: int, p: int) returns (h: Fund)
    requires Inv(f) && RemoveStake(f, i, now, p).Ok?
    ensures i < |f.stakes| && Sync(f, i) == Ok(h) && i < |h.stakes|
    ensures var (g, paid) := RemoveStake(f, i, now, p).value; var s := h.stakes[i]; var n := s.requestShares;
            && 0 < n <= s.shares && n <= h.total && s.requestValue == f.stakes[i].requestValue
            && paid == Min(Redeem(h.vault, h.total, n), s.requestValue) && paid < h.vault
            && g.vault == h.vault - paid && g.total == h.total - n && g.base == h.base
            && i < |g.stakes| && g.stakes[i].shares == s.shares - n && g.stakes[i].base == s.base == h.base
  {
    hide Redeem, SharesLost;
    h := Sync(f, i).value;
    SyncKeepsInv(f, i);
  }

  lemma {:induction false} WorthIsRedeem(vault: nat, total: nat, n: nat, tokens: nat)
    requires total > 0 && n <= total && Worth(vault, total, n, tokens)
    ensures tokens == Redeem(vault, total, n)
  {
    RedeemIsFloor(vault, total, n);
    DivUnique(vault * n, total, tokens);
  }

  lemma {:induction false} BurnReturns(v: nat, t: nat, paid: nat, n: nat, own: nat)
    requires 0 < n <= own <= t && paid <= Redeem(v, t, n)
    ensures paid <= v
    ensures Redeem(v, t, own) <= Redeem(v - paid, t - n, own - n) + Redeem(v, t, n) + 1
  {
    hide Redeem;
    RedeemSplits(v, t, own - n, n);
    WorthOfShares(v, t, n, paid);
    WithdrawKeepsValue(v, t, paid, n, own);
    if n < t {
      RedeemPriceMono(v, t, v - paid, t - n, own - n);
    } else {
      NoShares(v, t);
    }
  }

  /** Two lots of shares are worth their sum, or one unit less. */
  lemma {:induction false} RedeemSplits(v: nat, t: nat, a: nat, b: nat)
    requires a + b <= t && t > 0
    ensures Redeem(v, t, a) + Redeem(v, t, b) <= Redeem(v, t, a + b) <= Redeem(v, t, a) + Redeem(v, t, b) + 1
  {
    hide Redeem;
    var x, y, z := Redeem(v, t, a), Redeem(v, t, b), Redeem(v, t, a + b);
    Distrib(v, a, b);
    FloorsSum(v * a, v * b, t, x, y, z);
  }

  lemma {:induction false} FloorsSum(p: nat, q: nat, t: nat, x: nat, y: nat, z: nat)
    requires t * x <= p < t * x + t && t * y <= q < t * y + t && t * z <= p + q < t * z + t
    ensures x + y <= z <= x + y + 1
  {
    DivUnique(p, t, x);
    DivUnique(q, t, y);
    DivUnique(p + q, t, z);
    DivSum(p, q, t);
  }

  // ------------------------------------------------------------------------------- staking

  /** A stake mints the most shares the amount can buy at the price of the fund, charges what they
  cost rounded up, and adds both to the books and to the staker alone. */
  lemma {:induction false} AddMovesBooks(f: Fund, i: nat, requested: nat) returns (h: Fund, n: nat)
    requires Inv(f) && AddStake(f, i, requested).Ok?
    ensures i < |f.stakes| && UpToDate(f, h, i)
    ensures f.stakes[i].requestShares == 0 && f.stakes[i].requestValue == 0
    ensures var (g, cost) := AddStake(f, i, requested).value; var s := h.stakes[i];
            && n > 0 && 0 < cost <= requested
            && g == Fund(h.vault + cost, h.total + n, h.user + n, h.base, h.snapshot,
                         h.stakes[i := Stake(s.shares + n, h.base, 0, 0, s.requestTs)])
            && (h.vault == 0 ==> cost == n == requested && h.total == 0)
            && (h.vault > 0 ==> n * h.vault <= requested * h.total < (n + 1) * h.vault)
            && (h.vault > 0 ==> n * h.vault <= cost * h.total < n * h.vault + h.total)
  {
    hide DepositQuote, Sync, UpToDate;
    var cost;
    h, cost, n := AddSplits(f, i, requested);
    SeededSyncBooks(f, i);
    QuoteIs(f, i, requested, h, cost, n);
    if h.vault > 0 { MulMono(cost, requested, h.total); }
    assert h.stakes[i].requestShares == 0 && h.stakes[i].requestValue == 0;
  }

  lemma {:induction false} QuoteBuysOne(amount: nat, total: nat, vault: nat)
    requires vault > 0 || total == 0
    ensures var q := DepositQuote(amount, total, vault);
            q.Some? && (q.value.1 == 0 <==> if vault == 0 then amount == 0 else amount * total < vault)
  {
    hide DepositQuote;
    if vault > 0 {
      var (cost, n) := DepositQuote(amount, total, vault).value;
      if n == 0 {
        assert (n + 1) * vault == vault;
      } else {
        MulMono(1, n, vault);
        MulMono(cost, amount, total);
      }
    }
  }

  /** When a stake reverts: exactly when there is no such staker, a request is pending, shares are
  outstanding on an empty vault, or the amount does not buy one share. */
  lemma {:induction false} AddRevertsExactlyWhen(f: Fund, i: nat, requested: nat)
    requires Inv(f)
    ensures i < |f.stakes| ==> Sync(Seeded(f), i).Ok?
    ensures AddStake(f, i, requested).Err? <==>
              || i >= |f.stakes|
              || f.stakes[i].requestShares != 0 || f.stakes[i].requestValue != 0
              || (f.vault == 0 && (f.total != 0 || requested == 0))
              || (f.vault > 0 && requested * Sync(Seeded(f), i).value.total < f.vault)
  {
    hide DepositQuote, RebaseExpo;
    if i < |f.stakes| {
      SeededSyncBooks(f, i);
      var h := Sync(Seeded(f), i).value;
      if !(f.vault == 0 && f.total != 0) { QuoteBuysOne(requested, h.total, h.vault); }
      if f.vault == 0 && f.total == 0 { NothingDropped(h.total, h.base - f.base); }
    }
  }

  lemma {:induction false} QuoteIs(f: Fund, i: nat, requested: nat, h: Fund, cost: nat, n: nat)
    requires i < |f.stakes| && Sync(Seeded(f), i) == Ok(h) && |h.stakes| == |f.stakes|
    requires AddStake(f, i, requested) == Ok((Mint(h, i, cost, n), cost)) && n > 0
    ensures f.stakes[i].requestShares == 0 && f.stakes[i].requestValue == 0
    ensures DepositQuote(requested, h.total, h.vault) == Some((cost, n))
    ensures h.vault > 0 ==> requested * h.total < (n + 1) * h.vault
    ensures h.vault == 0 ==> cost == n == requested
  {
    hide Sync;
    var (c, k) := DepositQuote(requested, h.total, h.vault).value;
    assert Mint(h, i, c, k).total == h.total + k;
    assert Mint(h, i, cost, n).total == h.total + n;
  }

  lemma {:induction false} SeededSyncBooks(f: Fund, i: nat)
    requires Inv(f) && i < |f.stakes|
    ensures Sync(Seeded(f), i).Ok? && UpToDate(f, Sync(Seeded(f), i).value, i)
    ensures f.stakes[i].requestShares == 0 ==> Sync(Seeded(f), i).value.stakes[i].requestShares == 0
    ensures Sync(Seeded(f), i).value.stakes[i].requestValue == f.stakes[i].requestValue
  {
    hide RebaseExpo;
    SyncBooks(Seeded(f), i);
    var s := Sync(Seeded(f), i).value.stakes[i];
    if f.stakes[i].requestShares == 0 { NothingDropped(s.requestShares, s.base - f.stakes[i].base); }
  }

  lemma {:induction false} NothingDropped(after: nat, e: nat)
    requires Dropped(0, after, e)
    ensures after == 0
  {
    if after > 0 { MulMono(1, after, Pow10(e)); }
  }

  // ------------------------------------------------------------------ requests and cancels

  /** Nothing can be requested of an empty vault: any shares would be worth nothing. */
  lemma {:induction false} RequestHasFunds(f: Fund, i: nat, amount: nat, now: int)
    requires Inv(f) && RequestRemove(f, i, amount, now).Ok?
    ensures i < |f.stakes| && f.vault > 0
  {
    hide Redeem, Sync;
    if f.vault == 0 { OneOfTotal(f.stakes, f.base, i); }
  }

  /** A request sets aside the shares the amount is worth, rounded down, brings them up to date, and
  freezes what they are worth then, within all but one unit of the vault. */
  lemma {:induction false} RequestMovesBooks(f: Fund, i: nat, amount: nat, now: int) returns (h: Fund, asked: nat)
    requires Inv(f) && RequestRemove(f, i, amount, now).Ok?
    ensures i < |f.stakes| && f.stakes[i].requestShares == 0 && f.stakes[i].base == f.base
    ensures f.vault * asked <= amount * f.total < f.vault * asked + f.vault
    ensures 0 < asked <= f.stakes[i].shares
    ensures UpToDate(f.(stakes := f.stakes[i := f.stakes[i].(requestShares := asked)]), h, i)
    ensures var g := RequestRemove(f, i, amount, now).value;
            var s, value := h.stakes[i], g.stakes[i].requestValue;
            && g == h.(stakes := h.stakes[i := Stake(s.shares, h.base, s.requestShares, value, now)])
            && s.requestShares <= s.shares
            && value < h.vault && h.total * value <= h.vault * s.requestShares
            && (value < h.vault - 1 ==> Worth(h.vault, h.total, s.requestShares, value))
  {
    hide Redeem, SharesFor, UpToDate;
    asked := SharesFor(amount, f.total, f.vault).value;
    var s0 := f.stakes[i].(requestShares := asked);
    TotalUpdate(f.stakes, f.base, i, s0);
    var f0 := f.(stakes := f.stakes[i := s0]);
    SyncBooks(f0, i);
    SyncKeepsInv(f0, i);
    h := Sync(f0, i).value;
    RequestHasFunds(f, i, amount, now);
    var s := h.stakes[i];
    var value := RequestRemove(f, i, amount, now).value.stakes[i].requestValue;
    MulMono(value, Redeem(h.vault, h.total, s.requestShares), h.total);
  }

  lemma {:induction false} SharesCount(vault: nat, worth: nat, n: nat, shares: nat)
    requires vault > 0 && vault * n <= worth < vault * n + vault
    ensures n == 0 <==> worth < vault
    ensures shares < n <==> worth >= vault * (shares + 1)
  {
    DivUnique(worth, vault, n);
    DivGe(worth, vault, 1);
    DivGe(worth, vault, shares + 1);
  }

  lemma {:induction false} RequestGoesThrough(f: Fund, i: nat, amount: nat, now: int, n: nat)
    requires Inv(f) && i < |f.stakes| && f.stakes[i].requestShares == 0 && f.stakes[i].base == f.base
    requires SharesFor(amount, f.total, f.vault) == Some(n) && 0 < n <= f.stakes[i].shares
    ensures RequestRemove(f, i, amount, now).Ok?
  {
    hide Redeem, SharesFor;
    var s0 := f.stakes[i].(requestShares := n);
    TotalUpdate(f.stakes, f.base, i, s0);
    var f0 := f.(stakes := f.stakes[i := s0]);
    SyncKeepsInv(f0, i);
    OneOfTotal(Sync(f0, i).value.stakes, Sync(f0, i).value.base, i);
  }

  /** When a request reverts: exactly when there is no such staker, one is pending, the stake has not
  been brought up to date since the last rebase, the vault is empty, or the amount is worth no share
  or more than the staker has. */
  lemma {:induction false} RequestRevertsExactlyWhen(f: Fund, i: nat, amount: nat, now: int)
    requires Inv(f)
    ensures RequestRemove(f, i, amount, now).Err? <==>
              || i >= |f.stakes|
              || f.stakes[i].requestShares != 0 || f.stakes[i].base != f.base
              || f.vault == 0 || amount * f.total < f.vault
              || amount * f.total >= f.vault * (f.stakes[i].shares + 1)
  {
    hide Redeem, SharesFor;
    if RequestRemove(f, i, amount, now).Ok? {
      RequestHasFunds(f, i, amount, now);
      SharesCount(f.vault, amount * f.total, SharesFor(amount, f.total, f.vault).value, f.stakes[i].shares);
    } else if i < |f.stakes| && f.stakes[i].requestShares == 0 && f.stakes[i].base == f.base && f.vault > 0 {
      var n := SharesFor(amount, f.total, f.vault).value;
      SharesCount(f.vault, amount * f.total, n, f.stakes[i].shares);
      if 0 < n <= f.stakes[i].shares { RequestGoesThrough(f, i, amount, now, n); }
    }
  }

  /** A cancel gives the requested shares back but for a forfeit, which leaves the books entirely: it
  is none at all when the shares gained nothing since or are the whole fund, and otherwise the least
  that leaves them worth no more than the frozen value. The vault is untouched. */
  lemma {:induction false} CancelMovesBooks(f: Fund, i: nat, now: int) returns (h: Fund, lost: nat)
    requires Inv(f) && CancelRequest(f, i, now).Ok?
    ensures i < |f.stakes| && f.stakes[i].requestShares > 0 && UpToDate(f, h, i)
    ensures var s := h.stakes[i]; var n := s.requestShares;
            && lost <= n <= s.shares && lost <= h.user && n <= h.total
            && CancelRequest(f, i, now).value
               == Fund(h.vault, h.total - lost, h.user - lost, h.base, h.snapshot,
                       h.stakes[i := Stake(s.shares - lost, h.base, 0, 0, now)])
            && (n == h.total || Redeem(h.vault, h.total, n) <= s.requestValue ==> lost == 0)
            && (n < h.total && Redeem(h.vault, h.total, n) > s.requestValue ==>
                  && Redeem(h.vault, h.total - lost, n - lost) <= s.requestValue
                  && 0 < lost
                  && Redeem(h.vault, h.total - lost + 1, n - lost + 1) >= s.requestValue)
  {
    hide Redeem, SharesFor, SharesLost, UpToDate;
    h := Sync(f, i).value;
    SyncBooks(f, i);
    SyncKeepsInv(f, i);
    var s := h.stakes[i];
    OneOfTotal(h.stakes, h.base, i);
    SharesLostBounded(h, s);
    lost := SharesLost(h, s).value;
    ForfeitIsLeast(h, s);
  }

  lemma {:induction false} ForfeitIsLeast(h: Fund, s: Stake)
    requires s.requestShares <= h.total
    ensures SharesLost(h, s).Ok? && SharesLost(h, s).value <= s.requestShares
    ensures var n := s.requestShares; var lost := SharesLost(h, s).value;
            && (n == h.total || Redeem(h.vault, h.total, n) <= s.requestValue ==> lost == 0)
            && (n < h.total && Redeem(h.vault, h.total, n) > s.requestValue ==>
                  && Redeem(h.vault, h.total - lost, n - lost) <= s.requestValue
                  && 0 < lost
                  && Redeem(h.vault, h.total - lost + 1, n - lost + 1) >= s.requestValue)
  {
    hide Redeem, SharesFor, SharesLost;
    var n := s.requestShares;
    if n == h.total || Redeem(h.vault, h.total, n) <= s.requestValue {
      NothingLost(h, s);
    } else {
      var m := SharesFor(s.requestValue, h.total - n, h.vault - s.requestValue).value;
      LostIs(h, s, m);
      RestakeBounded(h.vault, h.total, n, s.requestValue);
      assert n - (n - m) == m;
      assert h.total - (n - m) + 1 == h.total - (n - m - 1);
    }
  }

  // ------------------------------------------------------------------- revenue and losses

  /** Revenue belongs to every share alike: each claim grows by its part of the amount, to one unit
  either way; the next settle is capped from the new balance. */
  lemma {:induction false} SettleSharesRevenue(f: Fund, amount: nat, j: nat)
    requires Inv(f) && j < |f.stakes|
    ensures var g := SettleRevenue(f, amount); var u := Effective(f.stakes[j], f.base);
            && Inv(g) && g.vault == g.snapshot == f.vault + amount
            && g.stakes == f.stakes && g.user == f.user && g.base == f.base
            && (f.total == 0 ==> g.total == g.vault)
            && (f.total > 0 ==> g.total == f.total
                                && amount * u - f.total < f.total * (Claim(g, j) - Claim(f, j)) < amount * u + f.total)
  {
    hide Redeem, Claim;
    var g, u := SettleRevenue(f, amount), Effective(f.stakes[j], f.base);
    ClaimIs(f, j, f.vault, f.total, u);
    ClaimIs(g, j, g.vault, g.total, u);
    Distrib(u, f.vault, amount);
    Distrib(f.total, Claim(g, j), Claim(f, j));
  }

  /** A loss falls on every share alike, and takes what it asks for or all but one unit. */
  lemma {:induction false} DrawSharesLoss(f: Fund, wanted: nat, j: nat)
    requires Inv(f) && j < |f.stakes|
    ensures var g := Draw(f, wanted); var u := Effective(f.stakes[j], f.base); var paid := f.vault - g.vault;
            && Inv(g) && 0 <= paid <= wanted && (paid < wanted ==> g.vault <= 1)
            && (f.vault > 0 ==> g.vault > 0)
            && g == f.(vault := f.vault - paid, snapshot := Min(f.snapshot, f.vault - paid))
            && (f.total > 0 ==> paid * u - f.total < f.total * (Claim(f, j) - Claim(g, j)) < paid * u + f.total)
  {
    hide Redeem, Claim;
    var g, u := Draw(f, wanted), Effective(f.stakes[j], f.base);
    ClaimIs(f, j, f.vault, f.total, u);
    ClaimIs(g, j, g.vault, g.total, u);
    Distrib(u, f.vault, g.vault);
    Distrib(f.total, Claim(f, j), Claim(g, j));
  }
}
