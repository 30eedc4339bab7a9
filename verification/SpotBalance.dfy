/** Scaled spot balances: a balance is worth its scaled amount times a growing index. */
module SpotBalance {
  import opened Arith
  import opened Wrappers

  /** `get_spot_balance` for a deposit: rounded down. */
  function ToScaled(tokens: nat, index: nat, precision: nat): (r: nat)
    requires index > 0
  {
    DivGe(tokens * precision, index, 0);
    (tokens * precision) / index
  }

  /** `get_token_amount` for a deposit: rounded down. */
  function Tokens(scaled: nat, index: nat, precision: nat): (r: nat)
    requires precision > 0
  {
    MulMono(0, index, scaled);
    DivGe(scaled * index, precision, 0);
    (scaled * index) / precision
  }

  /** `get_token_amount` for a borrow: rounded up. */
  function Debt(scaled: nat, index: nat, precision: nat): (r: nat)
    requires precision > 0
  {
    MulMono(0, index, scaled);
    CeilDiv(scaled * index, precision)
  }

  /** Taking tokens out of a pool inside the market: the pool is cleared when it is asked for
  all it holds, and asking for more is an error (a pool cannot become a borrow). */
  function Debit(pool: nat, tokens: nat, index: nat, precision: nat): (r: Option<nat>)
    requires index > 0 && precision > 0
  {
    var held := Tokens(pool, index, precision);
    if tokens > held then None
    else if held == 0 then Some(pool)
    else if tokens == held then Some(0)
    else
      DebitFits(pool, tokens, index, precision);
      Some(pool - ToScaled(tokens, index, precision))
  }

  lemma {:induction false} ScaledBounds(tokens: nat, index: nat, precision: nat)
    requires index > 0
    ensures var s := ToScaled(tokens, index, precision);
            s * index <= tokens * precision < s * index + index
  {
    DivBounds(tokens * precision, index);
  }

  lemma {:induction false} TokensBounds(scaled: nat, index: nat, precision: nat)
    requires precision > 0
    ensures var t := Tokens(scaled, index, precision);
            t * precision <= scaled * index < t * precision + precision
  {
    DivBounds(scaled * index, precision);
  }

  lemma {:induction false} DebitFits(pool: nat, tokens: nat, index: nat, precision: nat)
    requires index > 0 && precision > 0 && tokens <= Tokens(pool, index, precision)
    ensures ToScaled(tokens, index, precision) <= pool
  {
    TokensBounds(pool, index, precision);
    ScaledBounds(tokens, index, precision);
    var t := Tokens(pool, index, precision);
    MulMono(tokens, t, precision);
    MulCancel(ToScaled(tokens, index, precision), pool, index);
  }

  /** Rounding favours the pool paid from: it keeps at least what it held less the amount. */
  lemma {:induction false} DebitKeeps(pool: nat, tokens: nat, index: nat, precision: nat)
    requires index > 0 && precision > 0
    requires Debit(pool, tokens, index, precision).Some?
    ensures var p := Debit(pool, tokens, index, precision).value;
            && p <= pool && tokens <= Tokens(pool, index, precision)
            && Tokens(p, index, precision) >= Tokens(pool, index, precision) - tokens
            && ToScaled(tokens, index, precision) <= pool - p
  {
    var held := Tokens(pool, index, precision);
    DebitFits(pool, tokens, index, precision);
    TokensBounds(pool, index, precision);
    ScaledBounds(tokens, index, precision);
    var s := ToScaled(tokens, index, precision);
    if tokens < held {
      Distrib(index, pool, s);
      Distrib(precision, held, tokens);
      TokensAtLeast(pool - s, index, precision, held - tokens);
    }
    if tokens == 0 { assert tokens * precision == 0; }
  }

  lemma {:induction false} TokensAtLeast(scaled: nat, index: nat, precision: nat, t: int)
    requires precision > 0 && t * precision <= scaled * index
    ensures Tokens(scaled, index, precision) >= t
  {
    DivGe(scaled * index, precision, t);
  }

  /** More scaled balance, or a higher index, is never fewer tokens. */
  lemma {:induction false} TokensMono(s: nat, s': nat, index: nat, index': nat, precision: nat)
    requires precision > 0 && s <= s' && index <= index'
    ensures Tokens(s, index, precision) <= Tokens(s', index', precision)
  {
    MulMono(s, s', index);
    MulMono(index, index', s');
    DivMono(s * index, s' * index', precision);
  }

  /** A credit never adds more than the amount credited. */
  lemma {:induction false} CreditAdds(pool: nat, tokens: nat, index: nat, precision: nat)
    requires index > 0 && precision > 0
    ensures var p := pool + ToScaled(tokens, index, precision);
            Tokens(pool, index, precision) <= Tokens(p, index, precision) <= Tokens(pool, index, precision) + tokens
  {
    var s := ToScaled(tokens, index, precision);
    TokensMono(pool, pool + s, index, index, precision);
    ScaledBounds(tokens, index, precision);
    TokensBounds(pool, index, precision);
    var t := Tokens(pool, index, precision);
    Distrib(index, pool, s);
    Distrib(precision, t + 1, tokens);
    Distrib(precision, t, 1);
    DivGe((pool + s) * index, precision, t + tokens + 1);
  }

  /** A scaled balance was credited `tokens`: it grew by what they are worth, short by less than one
  unit of the index. */
  predicate Credits(before: nat, after: nat, tokens: nat, index: nat, precision: nat)
  {
    before <= after && (after - before) * index <= tokens * precision < (after - before) * index + index
  }

  /** A scaled balance was debited `tokens`: it fell by what they are worth to within one unit of the
  index, unless that cleared it, when less than one token of dust went with it. */
  predicate Debits(before: nat, after: nat, tokens: nat, index: nat, precision: nat)
  {
    && after <= before && (tokens == 0 ==> after == before)
    && (after > 0 ==> (before - after) * index <= tokens * precision)
    && tokens * precision < (before - after) * index + index
    && (before - after) * index < tokens * precision + precision
  }

  lemma {:induction false} CreditIs(pool: nat, tokens: nat, index: nat, precision: nat)
    requires index > 0
    ensures Credits(pool, pool + ToScaled(tokens, index, precision), tokens, index, precision)
  {
    hide ToScaled;
    ScaledBounds(tokens, index, precision);
  }

  lemma {:induction false} DebitIs(pool: nat, tokens: nat, index: nat, precision: nat)
    requires index > 0 && precision > 0 && Debit(pool, tokens, index, precision).Some?
    ensures Debits(pool, Debit(pool, tokens, index, precision).value, tokens, index, precision)
  {
    hide Tokens, ToScaled;
    DebitFits(pool, tokens, index, precision);
    TokensBounds(pool, index, precision);
    ScaledBounds(tokens, index, precision);
    if tokens == 0 { NothingScaled(index, precision); }
  }

  lemma {:induction false} NothingScaled(index: nat, precision: nat)
    requires index > 0
    ensures ToScaled(0, index, precision) == 0 && 0 * precision == 0
  {
    DivExact(0, index);
  }
}
