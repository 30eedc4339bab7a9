/** Insurance-fund share arithmetic: proportional floor mint and redeem, the rebase
divisor, and the rounding bounds the fund relies on. */
module Shares {
  import opened Arith
  import opened Wrappers

  /** `u64::MAX`, the constant above which the wide multiplication is used. */
  const LARGE: nat := 0xFFFF_FFFF_FFFF_FFFF

  /** `value * numerator / denominator` as the program computes it: four code paths chosen
  by magnitude, one of them through the complement of the numerator with a rounded-up
  subtraction. `None` is the division-by-zero error; zero over zero is not one. */
  function Proportion(value: nat, numerator: nat, denominator: nat): (r: Option<nat>)
    ensures denominator > 0 ==> r == Some((value * numerator) / denominator)
    ensures denominator == 0 ==> r == if numerator == 0 then Some(value) else None
  {
    if numerator == denominator then SelfProportion(value, numerator); Some(value)
    else if denominator == 0 then None
    else if value >= LARGE || numerator >= LARGE then
      FloorNonneg(value, numerator, denominator);
      Some((value * numerator) / denominator)
    else if numerator > denominator / 2 && denominator > numerator then
      Some(ViaComplement(value, numerator, denominator))
    else
      FloorNonneg(value, numerator, denominator);
      Some((value * numerator) / denominator)
  }

  lemma {:induction false} FloorNonneg(value: nat, n: nat, d: nat)
    requires d > 0
    ensures (value * n) / d >= 0
  {
    MulMono(0, value, n);
    DivGe(value * n, d, 0);
  }

  lemma {:induction false} SelfProportion(value: nat, d: nat)
    ensures d > 0 ==> (value * d) / d == value
  {
    if d > 0 { DivExact(value, d); }
  }

  function ViaComplement(value: nat, n: nat, d: nat): (r: nat)
    requires n < d
    ensures r == (value * n) / d
  {
    var wide := value * (d - n);
    var rem := wide % d;
    ComplementFloor(value, n, d);
    value - (wide - rem) / d - (if rem > 0 then 1 else 0)
  }

  /** Subtracting the ceiling of the complement is the floor of the proportion. */
  lemma {:induction false} ComplementFloor(value: nat, n: nat, d: nat)
    requires n < d
    ensures var wide := value * (d - n);
            value - (wide - wide % d) / d - (if wide % d > 0 then 1 else 0) == (value * n) / d >= 0
  {
    var wide := value * (d - n);
    var q := wide / d;
    DivGe(value * n, d, 0);
    DivBounds(wide, d);
    ModIs(wide, d);
    DivExact(q, d);
    Distrib(value, d, n);
    ComplementUnique(value, value * n, d, wide, q);
  }

  lemma {:induction false} ComplementUnique(value: nat, part: nat, d: nat, wide: nat, q: int)
    requires d > 0 && part + wide == value * d && d * q <= wide < d * q + d
    ensures part / d == if d * q < wide then value - (q + 1) else value - q
  {
    var c := if d * q < wide then q + 1 else q;
    Distrib(d, value, c);
    Distrib(d, q, 1);
    DivUnique(part, d, value - c);
  }

  /** Tokens `n` of `total` shares redeem for (`if_shares_to_vault_amount`). */
  function Redeem(vault: nat, total: nat, n: nat): (r: nat)
    requires n <= total
    ensures total > 0 ==> total * r <= vault * n < total * r + total
    ensures r <= vault
    ensures n == total > 0 ==> r == vault
  {
    if total > 0 then
      var r := Proportion(vault, n, total).value;
      DivBounds(vault * n, total);
      DivGe(vault * n, total, 0);
      MulMono(n, total, vault);
      RedeemAtMostVault(vault, total, n, r);
      r
    else 0
  }

  lemma {:induction false} RedeemAtMostVault(vault: nat, total: nat, n: nat, r: nat)
    requires n <= total && total > 0
    requires total * r <= vault * n < total * r + total
    ensures r <= vault
    ensures n == total ==> r == vault
  {
    MulMono(n, total, vault);
    MulCancel(r, vault, total);
    if n == total { DivUnique(vault * n, total, r); DivExact(vault, total); }
  }

  lemma {:induction false} RedeemIsFloor(vault: nat, total: nat, n: nat)
    requires n <= total && total > 0
    ensures Redeem(vault, total, n) == (vault * n) / total
  {
    DivUnique(vault * n, total, Redeem(vault, total, n));
  }

  /** Shares `amount` tokens are worth (`vault_amount_to_if_shares`); an empty vault with
  shares outstanding is an error. */
  function SharesFor(amount: nat, total: nat, vault: nat): (r: Option<nat>)
    ensures vault > 0 ==> r.Some? && vault * r.value <= amount * total < vault * r.value + vault
    ensures vault == 0 ==> r == if total == 0 then Some(amount) else None
  {
    if vault > 0 then
      DivBounds(amount * total, vault);
      Proportion(amount, total, vault)
    else if total == 0 then Some(amount)
    else None
  }

  /** The whole shares a deposit buys and what exactly those shares cost
  (`deposit_amount_and_shares_for_if_stake`): shares floored, their cost rounded up. */
  function DepositQuote(amount: nat, total: nat, vault: nat): (r: Option<(nat, nat)>)
    ensures vault == 0 && total != 0 <==> r.None?
    ensures r.Some? ==> r.value.0 <= amount
    // the fund never sells a share below its price, and overcharges by less than a unit
    ensures r.Some? && vault > 0 ==>
              var (cost, n) := r.value;
              n * vault <= cost * total && (n > 0 ==> cost * total < n * vault + total)
    // one more share would not have been affordable
    ensures r.Some? && vault > 0 ==> (r.value.1 + 1) * vault > amount * total
    ensures r.Some? && vault == 0 ==> r.value == (amount, amount)
    ensures r.Some? && r.value.1 == 0 ==> r.value.0 == 0
    ensures r.Some? && vault > 0 && r.value.1 > 0 ==> total > 0 && r.value.0 > 0
  {
    if vault == 0 then
      if total != 0 then None else Some((amount, amount))
    else
      DivGe(amount * total, vault, 0);
      var n := (amount * total) / vault;
      DepositBounds(amount, total, vault, n);
      if n == 0 then Some((0, 0)) else Some((CeilDiv(n * vault, total), n))
  }

  lemma {:induction false} DepositBounds(amount: nat, total: nat, vault: nat, n: nat)
    requires vault > 0 && n == (amount * total) / vault
    ensures (n + 1) * vault > amount * total
    ensures n > 0 ==> total > 0
    ensures n > 0 ==>
              var cost := CeilDiv(n * vault, total);
              0 < cost <= amount && n * vault <= cost * total < n * vault + total
  {
    hide CeilDiv;
    DivBounds(amount * total, vault);
    Distrib(vault, n, 1);
    if n > 0 {
      MulStrict(0, n, vault);
      assert total > 0;
      CeilBounds(n * vault, total);
      CeilLeast(n * vault, total, amount);
      CeilLeast(n * vault, total, 0);
    }
  }

  // ---------------------------------------------------------------- powers of ten

  function Pow10(k: nat): (r: nat)
    ensures r >= 1
  {
    if k == 0 then 1 else 10 * Pow10(k - 1)
  }

  lemma {:induction false} Pow10Add(a: nat, b: nat)
    ensures Pow10(a + b) == Pow10(a) * Pow10(b)
  {
    if a == 0 {
    } else {
      Pow10Add(a - 1, b);
      assert Pow10(a + b) == 10 * (Pow10(a - 1) * Pow10(b)) == Pow10(a) * Pow10(b);
    }
  }

  /** Shares with `e` decimal places dropped. */
  function Shift(n: nat, e: nat): (r: nat)
    ensures r <= n
    ensures e == 0 ==> r == n
  {
    DivGe(n, Pow10(e), 0);
    DivMonoDivisor(n, 1, Pow10(e));
    n / Pow10(e)
  }

  lemma {:induction false} ShiftShift(n: nat, a: nat, b: nat)
    ensures Shift(Shift(n, a), b) == Shift(n, a + b)
  {
    Pow10Add(a, b);
    DivDiv(n, Pow10(a), Pow10(b));
  }

  lemma {:induction false} ShiftMono(a: nat, b: nat, e: nat)
    requires a <= b
    ensures Shift(a, e) <= Shift(b, e)
  {
    DivMono(a, b, Pow10(e));
  }

  lemma {:induction false} ShiftSum(a: nat, b: nat, e: nat)
    ensures Shift(a, e) + Shift(b, e) <= Shift(a + b, e)
  {
    DivSum(a, b, Pow10(e));
  }

  /** Number of times ten divides out of `n`. */
  function Log10(n: nat): (r: nat)
  {
    if n < 10 then 0 else Log10(n / 10) + 1
  }

  /** The digit count brackets the number between consecutive powers of ten. */
  lemma {:induction false} Log10Brackets(n: nat)
    ensures n >= 1 ==> Pow10(Log10(n)) <= n
    ensures n < Pow10(Log10(n) + 1)
  {
    if n < 10 {
      assert Pow10(1) == 10;
    } else {
      Log10Brackets(n / 10);
      DivBounds(n, 10);
      var p := Pow10(Log10(n / 10));
      assert Pow10(Log10(n)) == 10 * p;
      assert Pow10(Log10(n) + 1) == 10 * Pow10(Log10(n / 10) + 1);
    }
  }

  /** `log10_iter`: the loop that counts divisions by ten. */
  method Log10Iter(n: nat) returns (result: nat)
    ensures result == Log10(n)
  {
    result := 0;
    var rest := n;
    while rest >= 10
      invariant result + Log10(rest) == Log10(n)
    {
      result := result + 1;
      rest := rest / 10;
    }
  }

  // ------------------------------------------------------------------------- rebase

  /** Decimal places a rebase drops (`calculate_rebase_info`). */
  function RebaseExpo(total: nat, vault: nat): (r: nat)
    requires vault > 0
  {
    Log10((total / 10) / vault)
  }

  /** A rebase that drops any digits leaves at least ten shares per token. */
  lemma {:induction false} RebaseLeavesTenfold(total: nat, vault: nat)
    requires vault > 0 && RebaseExpo(total, vault) > 0
    ensures Shift(total, RebaseExpo(total, vault)) >= 10 * vault
  {
    var e := RebaseExpo(total, vault);
    var f := (total / 10) / vault;
    DivDiv(total, 10, vault);
    Log10Brackets(f);
    var d := Pow10(e);
    DivBounds(total, 10 * vault);
    MulMono(d, f, 10 * vault);
    assert d * (10 * vault) <= total;
    DivGe(total, d, 10 * vault);
  }

  /** And no rebase leaves a hundred shares per token or more. */
  lemma {:induction false} RebaseLeavesUnderHundredfold(total: nat, vault: nat)
    requires vault > 0
    ensures Shift(total, RebaseExpo(total, vault)) < 100 * vault
  {
    var e := RebaseExpo(total, vault);
    var d, f := Pow10(e), (total / 10) / vault;
    DivDiv(total, 10, vault);
    Log10Brackets(f);
    DivBounds(total, 10 * vault);
    UnderHundredfold(total, vault, d, f);
    DivGe(total, d, 100 * vault);
  }

  lemma {:induction false} UnderHundredfold(total: nat, vault: nat, d: nat, f: nat)
    requires total < (10 * vault) * f + 10 * vault && f < 10 * d
    ensures total < d * (100 * vault)
  {
    Distrib(10 * vault, f, 1);
    MulMono(f + 1, 10 * d, 10 * vault);
    Assoc(10 * vault, 10, d);
  }

  /** A second rebase at the same balance would drop nothing. */
  lemma {:induction false} RebaseIdempotent(total: nat, vault: nat)
    requires vault > 0
    ensures RebaseExpo(Shift(total, RebaseExpo(total, vault)), vault) == 0
  {
    var d := Pow10(RebaseExpo(total, vault));
    var f := (total / 10) / vault;
    Log10Brackets(f);
    calc {
      ((total / d) / 10) / vault;
    == { DivSwap(total, d, 10); }
      ((total / 10) / d) / vault;
    == { DivSwap(total / 10, d, vault); }
      f / d;
    <= { DivGe(f, d, 10); }
      9;
    }
  }

  /** Rebasing by any divisor that leaves shares outstanding moves a redeemable amount by at
  most one rebased share's worth plus one unit, either way; rebasing by one moves nothing. */
  lemma {:induction false} RebaseBound(vault: nat, total: nat, n: nat, d: nat)
    requires n <= total && d > 0 && total / d > 0
    ensures n / d <= total / d
    ensures Redeem(vault, total, n) <= Redeem(vault, total / d, n / d) + vault / (total / d) + 1
    ensures Redeem(vault, total / d, n / d) <= Redeem(vault, total, n) + vault / (total / d) + 1
    ensures d == 1 ==> Redeem(vault, total / d, n / d) == Redeem(vault, total, n)
  {
    DivMono(n, total, d);
    DivBounds(n, d);
    DivBounds(total, d);
    RebaseBoundAt(vault, total, n, d, total / d, n / d);
  }

  lemma {:induction false} RebaseBoundAt(vault: nat, total: nat, n: nat, d: nat, t: nat, m: nat)
    requires d > 0 && t > 0 && n <= total && m <= t
    requires d * t <= total < d * t + d && d * m <= n < d * m + d
    ensures Redeem(vault, total, n) <= Redeem(vault, t, m) + vault / t + 1
    ensures Redeem(vault, t, m) <= Redeem(vault, total, n) + vault / t + 1
  {
    MulStrict(0, d, t);
    RedeemIsFloor(vault, total, n);
    RedeemIsFloor(vault, t, m);
    RebaseBoundDown(vault, total, n, d, t, m);
    RebaseBoundUp(vault, total, n, d, t, m);
  }

  /** A share count and a total rounded down by the same divisor: `n/total <= (m+1)/t`. */
  lemma {:induction false} RebaseBoundDown(vault: nat, total: nat, n: nat, d: nat, t: nat, m: nat)
    requires total > 0 && t > 0 && d > 0
    requires d * t <= total && n < d * m + d
    ensures (vault * n) / total <= (vault * m) / t + vault / t + 1
  {
    calc {
      n * t;
    <= { MulMono(n, d * (m + 1), t); Distrib(d, m, 1); }
      (d * (m + 1)) * t;
    == { Assoc(d, m + 1, t); }
      (d * t) * (m + 1);
    <= { MulMono(d * t, total, m + 1); }
      total * (m + 1);
    }
    FloorFractionMono(n, total, m + 1, t, vault);
    Distrib(vault, m, 1);
    DivSum(vault * m, vault, t);
  }

  /** `m/t <= (m+1)/(t+1)` and `m/(t+1) <= n/total`. */
  lemma {:induction false} RebaseBoundUp(vault: nat, total: nat, n: nat, d: nat, t: nat, m: nat)
    requires total > 0 && t > 0 && d > 0 && m <= t
    requires total < d * t + d && d * m <= n
    ensures (vault * m) / t <= (vault * n) / total + vault / t + 1
  {
    calc {
      m * total;
    <= { MulMono(total, d * (t + 1), m); Distrib(d, t, 1); }
      m * (d * (t + 1));
    == { Assoc(m, d, t + 1); }
      (d * m) * (t + 1);
    <= { MulMono(d * m, n, t + 1); }
      n * (t + 1);
    }
    FloorFractionMono(m, t + 1, n, total, vault);
    assert m * (t + 1) <= (m + 1) * t by { Distrib(m, t, 1); Distrib(t, m, 1); }
    FloorFractionMono(m, t, m + 1, t + 1, vault);
    Distrib(vault, m, 1);
    DivSum(vault * m, vault, t + 1);
    DivMonoDivisor(vault, t, t + 1);
  }

  /** The program's own rebase moves no redeemable amount by more than one token unit, and
  a rebase that drops no digits moves nothing. */
  lemma {:induction false} ProgramRebaseBound(vault: nat, total: nat, n: nat)
    requires vault > 0 && n <= total
    ensures var e := RebaseExpo(total, vault);
            && Shift(n, e) <= Shift(total, e)
            && Redeem(vault, total, n) <= Redeem(vault, Shift(total, e), Shift(n, e)) + 1
            && Redeem(vault, Shift(total, e), Shift(n, e)) <= Redeem(vault, total, n) + 1
            && (e == 0 ==> Redeem(vault, Shift(total, e), Shift(n, e)) == Redeem(vault, total, n))
  {
    var e := RebaseExpo(total, vault);
    var d := Pow10(e);
    if e > 0 {
      RebaseLeavesTenfold(total, vault);
      RebaseBound(vault, total, n, d);
      DivUnique(vault, total / d, 0);
    } else {
      ShiftMono(n, total, e);
    }
  }

  // ------------------------------------------------------- what an operation does to claims

  /** A claim never falls when the price of a share does not fall. */
  lemma {:induction false} RedeemPriceMono(v: nat, t: nat, v2: nat, t2: nat, u: nat)
    requires u <= t && u <= t2 && t > 0 && t2 > 0
    requires v * t2 <= v2 * t
    ensures Redeem(v, t, u) <= Redeem(v2, t2, u)
  {
    RedeemIsFloor(v, t, u);
    RedeemIsFloor(v2, t2, u);
    FloorFractionMono(v, t, v2, t2, u);
  }

  /** Staking: everybody's price is kept or raised, the staker gains at most what was paid,
  and loses at most one unit to rounding. */
  lemma {:induction false} DepositKeepsValue(v: nat, t: nat, cost: nat, n: nat, own: nat)
    requires v > 0 && t > 0 && own <= t && n > 0
    requires n * v <= cost * t < n * v + t
    ensures v * (t + n) <= (v + cost) * t
    ensures Redeem(v + cost, t + n, own + n) <= Redeem(v, t, own) + cost
    ensures Redeem(v, t, own) + cost <= Redeem(v + cost, t + n, own + n) + 1
  {
    Distrib(v, t, n);
    Distrib(t, v, cost);
    DepositUpper(v, t, cost, n, own, Redeem(v, t, own), Redeem(v + cost, t + n, own + n));
    RedeemPriceMono(v, t, v + cost, t + n, own);
    RedeemIsFloor(v + cost, t + n, own + n);
    RedeemIsFloor(v + cost, t + n, own);
    DepositLower(v, t, cost, n, own);
  }

  lemma {:induction false} DepositLower(v: nat, t: nat, cost: nat, n: nat, own: nat)
    requires t > 0 && n > 0
    requires cost * t < n * v + t
    ensures ((v + cost) * own) / (t + n) + cost - 1 <= ((v + cost) * (own + n)) / (t + n)
  {
    calc {
      (t + n) * (cost - 1);
    == { Distrib(cost - 1, t, n); Distrib(t, cost, 1); Distrib(n, cost, 1); }
      t * cost - t + n * cost - n;
    <=
      n * v + n * cost;
    == { Distrib(n, v, cost); }
      (v + cost) * n;
    }
    DivGe((v + cost) * n, t + n, cost - 1);
    DivSum((v + cost) * own, (v + cost) * n, t + n);
    Distrib(v + cost, own, n);
  }

  lemma {:induction false} DepositUpper(v: nat, t: nat, cost: nat, n: nat, own: nat, r0: nat, r1: nat)
    requires t > 0 && own <= t && n > 0
    requires n * v <= cost * t
    requires v * own < t * r0 + t
    requires (t + n) * r1 <= (v + cost) * (own + n)
    ensures r1 <= r0 + cost
  {
    var p, total, rest := v + cost, t + n, t - own;
    // the other stakers' part of the pool keeps its value: p/total >= v/t
    calc {
      (p * (own + n)) * t;
    == { assert own + n == total - rest; Complement(p, total, rest, t); }
      (p * t) * total - (p * rest) * t;
    <= { SpareKeepsValue(v, t, cost, n, rest); }
      (p * t) * total - (v * rest) * total;
    == { Distrib(total, p * t, v * rest); }
      (p * t - v * rest) * total;
    == { Distrib(t, v, cost); Distrib(v, t, own); }
      (v * own + cost * t) * total;
    < { Distrib(t, r0 + 1, cost); Distrib(t, r0, 1);
        MulStrict(v * own + cost * t, (r0 + 1 + cost) * t, total); }
      ((r0 + 1 + cost) * t) * total;
    == { Assoc(r0 + 1 + cost, t, total); }
      (total * (r0 + 1 + cost)) * t;
    }
    MulCancel(p * (own + n), total * (r0 + 1 + cost), t);
    assert total * r1 == r1 * total && total * (r0 + 1 + cost) == (r0 + 1 + cost) * total;
    MulCancel(r1, r0 + 1 + cost, total);
  }

  lemma {:induction false} SpareKeepsValue(v: nat, t: nat, cost: nat, n: nat, rest: nat)
    requires n * v <= cost * t
    ensures (v * rest) * (t + n) <= ((v + cost) * rest) * t
  {
    Distrib(v, t, n);
    Distrib(t, v, cost);
    MulMono(v * (t + n), (v + cost) * t, rest);
    Assoc(v, t + n, rest);
    Assoc(v + cost, t, rest);
  }

  /** Withdrawing at or below the price of the burnt shares keeps or raises everybody's
  price; the withdrawer's payout and remaining claim never exceed the old claim. */
  lemma {:induction false} WithdrawKeepsValue(v: nat, t: nat, w: nat, n: nat, own: nat)
    requires n <= own <= t && t > 0 && n > 0
    requires w * t <= v * n
    ensures w <= v
    ensures v * (t - n) <= (v - w) * t
    ensures Redeem(v - w, t - n, own - n) + w <= Redeem(v, t, own)
  {
    MulMono(n, t, v);
    MulCancel(w, v, t);
    Distrib(v, t, n);
    Distrib(t, v, w);
    RedeemIsFloor(v, t, own);
    WithdrawUpper(v, t, w, n, own, Redeem(v - w, t - n, own - n));
    DivGe(v * own, t, Redeem(v - w, t - n, own - n) + w);
  }

  lemma {:induction false} WithdrawUpper(v: nat, t: nat, w: nat, n: nat, own: nat, r: nat)
    requires n <= own <= t && t > 0
    requires w * t <= v * n && w <= v
    requires t == n ==> r == 0
    requires t > n ==> (t - n) * r <= (v - w) * (own - n)
    ensures t * (r + w) <= v * own
  {
    if t == n {
      MulMono(n, own, v);
    } else {
      var rest := t - own;
      // the shares that stay hold (v - w) in all; those of the others keep their price
      calc {
        (r * t) * (t - n);
      == { Assoc(t - n, r, t); }
        ((t - n) * r) * t;
      <= { MulMono((t - n) * r, (v - w) * (own - n), t); }
        ((v - w) * (own - n)) * t;
      == { Complement(v - w, t - n, rest, t); }
        ((v - w) * t) * (t - n) - ((v - w) * rest) * t;
      <= { OthersKeepValue(v, t, w, n, rest); }
        ((v - w) * t) * (t - n) - (v * rest) * (t - n);
      == { Distrib(t - n, (v - w) * t, v * rest); }
        ((v - w) * t - v * rest) * (t - n);
      == { Distrib(t, v, w); Distrib(v, t, own); }
        (v * own - w * t) * (t - n);
      }
      MulCancel(r * t, v * own - w * t, t - n);
      Distrib(t, r, w);
    }
  }

  lemma {:induction false} Complement(p: int, all: int, rest: int, t: int)
    ensures (p * (all - rest)) * t == (p * t) * all - (p * rest) * t
  {
    Distrib(p, all, rest);
    Distrib(t, p * all, p * rest);
    Assoc(p, all, t);
  }

  lemma {:induction false} OthersKeepValue(v: nat, t: nat, w: nat, n: nat, rest: nat)
    requires n <= t && w <= v && w * t <= v * n
    ensures (v * rest) * (t - n) <= ((v - w) * rest) * t
  {
    Distrib(v, t, n);
    Distrib(t, v, w);
    MulMono(v * (t - n), (v - w) * t, rest);
    Assoc(v, t - n, rest);
    Assoc(v - w, t, rest);
  }

  /** Restaking a frozen value into the pool that remains mints no more shares than were
  requested, and those shares are then worth no more than the frozen value; one share more
  would have been worth at least that value. */
  lemma {:induction false} RestakeBounded(v: nat, t: nat, n: nat, frozen: nat)
    requires n < t && Redeem(v, t, n) > frozen
    ensures frozen < v
    ensures var m := SharesFor(frozen, t - n, v - frozen).value;
            && m <= n
            && Redeem(v, t - (n - m), m) <= frozen
            && (m < n ==> Redeem(v, t - (n - m - 1), m + 1) >= frozen)
  {
    var m := SharesFor(frozen, t - n, v - frozen).value;
    RestakeMintsNoMore(v, t, n, frozen, Redeem(v, t, n), m);
    RestakeWorth(v, t - n, frozen, m, Redeem(v, t - n + m, m));
    assert t - n + m == t - (n - m);
    if m < n {
      RedeemIsFloor(v, t - n + m + 1, m + 1);
      RestakeWorthNext(v, t - n, frozen, m);
      assert t - n + m + 1 == t - (n - m - 1);
    }
  }

  lemma {:induction false} RestakeMintsNoMore(v: nat, t: nat, n: nat, frozen: nat, r: nat, m: nat)
    requires n < t && frozen < r && frozen < v && t * r <= v * n
    requires (v - frozen) * m <= frozen * (t - n)
    ensures m <= n
  {
    calc {
      m * (v - frozen);
    <=
      frozen * (t - n);
    == { Distrib(frozen, t, n); }
      frozen * t - frozen * n;
    <= { MulMono(frozen, r, t); }
      t * r - frozen * n;
    <= { Distrib(n, v, frozen); }
      n * (v - frozen);
    }
    MulCancel(m, n, v - frozen);
  }

  lemma {:induction false} RestakeWorth(v: nat, k: nat, frozen: nat, m: nat, r: nat)
    requires frozen < v && k > 0
    requires (v - frozen) * m <= frozen * k
    requires (k + m) * r <= v * m
    ensures r <= frozen
  {
    Distrib(m, v, frozen);
    Distrib(frozen, k, m);
    assert r * (k + m) <= frozen * (k + m);
    MulCancel(r, frozen, k + m);
  }

  lemma {:induction false} RestakeWorthNext(v: nat, k: nat, frozen: nat, m: nat)
    requires frozen < v && k > 0
    requires frozen * k < (v - frozen) * m + (v - frozen)
    ensures (v * (m + 1)) / (k + m + 1) >= frozen
  {
    Distrib(v - frozen, m, 1);
    Distrib(m + 1, v, frozen);
    Distrib(frozen, k, m + 1);
    assert (k + m + 1) * frozen <= v * (m + 1);
    DivGe(v * (m + 1), k + m + 1, frozen);
  }
}
