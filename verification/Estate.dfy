/** Winding up a bankrupt estate: its positive claims on other markets are first paid out of
their pnl pools, then what no pool can pay is forfeited to those markets' insurance tranches. */
module Estate {
  import opened Arith
  import opened SpotBalance
  import opened PerpMarket

  /** One settled positive claim, the pool that owes it and that market's insurance counter. */
  datatype Row = Row(claim: nat, pool: nat, pendingIf: nat)

  function Payable(r: Row, index: nat): (p: nat)
  {
    Min(r.claim, Tokens(r.pool, index, PRECISION))
  }

  /** What one row pays when `remaining` is still wanted. */
  function PayRow(r: Row, index: nat, remaining: nat): (p: (Row, nat))
    requires index > 0
    ensures p.1 == Min(Payable(r, index), remaining)
    ensures p.0.claim == r.claim - p.1 && p.0.pendingIf == r.pendingIf
    ensures Tokens(p.0.pool, index, PRECISION) >= Tokens(r.pool, index, PRECISION) - p.1
    ensures p.1 == Tokens(r.pool, index, PRECISION) ==> Tokens(p.0.pool, index, PRECISION) == 0
    ensures Debits(r.pool, p.0.pool, p.1, index, PRECISION)
  {
    hide ToScaled;
    var x := Min(Payable(r, index), remaining);
    if x == 0 then (r, 0)
    else
      DebitKeeps(r.pool, x, index, PRECISION);
      DebitIs(r.pool, x, index, PRECISION);
      assert Tokens(0, index, PRECISION) == 0;
      (r.(claim := r.claim - x, pool := Debit(r.pool, x, index, PRECISION).value), x)
  }

  datatype Recovery = Recovery(rows: seq<Row>, total: nat, deposit: nat)

  /** The recovery pass: row by row, until the debt is covered. `deposit` is the estate's
  scaled quote deposit, credited row by row. */
  function Recover(rows: seq<Row>, index: nat, remaining: nat, deposit: nat): (r: Recovery)
    requires index > 0
    ensures |r.rows| == |rows| && r.total <= remaining
  {
    if rows == [] then Recovery([], 0, deposit)
    else
      var (row, x) := PayRow(rows[0], index, remaining);
      var rest := Recover(rows[1..], index, remaining - x, deposit + ToScaled(x, index, PRECISION));
      Recovery([row] + rest.rows, x + rest.total, rest.deposit)
  }

  /** `recover_perp_claims_from_pnl_pools` */
  method RecoverClaims(rows: seq<Row>, index: nat, maxRecovery: nat, deposit: nat) returns (r: Recovery)
    requires index > 0
    ensures r == Recover(rows, index, maxRecovery, deposit)
  {
    hide PayRow, ToScaled, Recover;
    if maxRecovery == 0 {
      NothingRecovered(rows, index, deposit);
      return Recovery(rows, 0, deposit);
    }
    var remaining, total, dep := maxRecovery, 0, deposit;
    var out: seq<Row> := [];
    var i := 0;
    ghost var goal := Recover(rows, index, maxRecovery, deposit);
    assert rows[0..] == rows;
    while i < |rows|
      invariant 0 <= i <= |rows| && 0 <= total && 0 <= dep && 0 <= remaining && remaining + total == maxRecovery
      invariant goal.rows == out + Recover(rows[i..], index, remaining, dep).rows
      invariant goal.total == total + Recover(rows[i..], index, remaining, dep).total
      invariant goal.deposit == Recover(rows[i..], index, remaining, dep).deposit
    {
      if remaining == 0 {
        NothingRecovered(rows[i..], index, dep);
        return Recovery(out + rows[i..], total, dep);
      }
      var (row, x) := PayRow(rows[i], index, remaining);
      RecoverUnfold(rows, i, index, remaining, dep);
      ghost var tail := Recover(rows[i + 1..], index, remaining - x, dep + ToScaled(x, index, PRECISION));
      assert out + ([row] + tail.rows) == (out + [row]) + tail.rows;
      dep := dep + ToScaled(x, index, PRECISION);
      remaining := remaining - x;
      total := total + x;
      out := out + [row];
      i := i + 1;
    }
    assert rows[i..] == [];
    RecoverEmpty(index, remaining, dep);
    assert out + [] == out;
    return Recovery(out, total, dep);
  }

  lemma {:induction false} RecoverEmpty(index: nat, remaining: nat, deposit: nat)
    requires index > 0
    ensures Recover([], index, remaining, deposit) == Recovery([], 0, deposit)
  {
  }

  lemma {:induction false} RecoverUnfold(rows: seq<Row>, i: nat, index: nat, remaining: nat, deposit: nat)
    requires index > 0 && i < |rows|
    ensures var (row, x) := PayRow(rows[i], index, remaining);
            var rest := Recover(rows[i + 1..], index, remaining - x, deposit + ToScaled(x, index, PRECISION));
            Recover(rows[i..], index, remaining, deposit) == Recovery([row] + rest.rows, x + rest.total, rest.deposit)
  {
    hide PayRow, ToScaled;
    assert rows[i..][1..] == rows[i + 1..] && rows[i..][0] == rows[i];
  }

  lemma {:induction false} NothingRecovered(rows: seq<Row>, index: nat, deposit: nat)
    requires index > 0
    ensures Recover(rows, index, 0, deposit) == Recovery(rows, 0, deposit)
  {
    if rows == [] {
    } else {
      NothingRecovered(rows[1..], index, deposit);
      assert [rows[0]] + rows[1..] == rows;
      assert ToScaled(0, index, PRECISION) == 0 by { DivUnique(0, index, 0); }
    }
  }

  /** What one row forfeits: only what its pool cannot pay. */
  function ForfeitRow(r: Row, index: nat, remaining: nat): (p: (Row, nat))
  {
    var x := Min(SatSub(r.claim, Tokens(r.pool, index, PRECISION)), remaining);
    (r.(claim := r.claim - x, pendingIf := r.pendingIf + x), x)
  }

  function Forfeit(rows: seq<Row>, index: nat, remaining: nat): (r: (seq<Row>, nat))
    ensures |r.0| == |rows| && r.1 <= remaining
  {
    if rows == [] then ([], 0)
    else
      var (row, x) := ForfeitRow(rows[0], index, remaining);
      var (rest, total) := Forfeit(rows[1..], index, remaining - x);
      ([row] + rest, x + total)
  }

  /** `extinguish_unfundable_perp_claims` */
  method ExtinguishClaims(rows: seq<Row>, index: nat, maxForfeit: nat) returns (r: (seq<Row>, nat))
    ensures r == Forfeit(rows, index, maxForfeit)
  {
    hide ForfeitRow;
    var remaining, total := maxForfeit, 0;
    var out: seq<Row> := [];
    var i := 0;
    ghost var goal := Forfeit(rows, index, maxForfeit);
    assert rows[0..] == rows;
    while i < |rows|
      invariant 0 <= i <= |rows| && 0 <= total && 0 <= remaining && remaining + total == maxForfeit
      invariant goal.0 == out + Forfeit(rows[i..], index, remaining).0
      invariant goal.1 == total + Forfeit(rows[i..], index, remaining).1
    {
      if remaining == 0 {
        NothingForfeited(rows[i..], index);
        return (out + rows[i..], total);
      }
      var (row, x) := ForfeitRow(rows[i], index, remaining);
      assert rows[i..][1..] == rows[i + 1..];
      ghost var tail := Forfeit(rows[i + 1..], index, remaining - x);
      assert out + ([row] + tail.0) == (out + [row]) + tail.0;
      remaining := remaining - x;
      total := total + x;
      out := out + [row];
      i := i + 1;
    }
    assert rows[i..] == [];
    assert out + [] == out;
    return (out, total);
  }

  lemma {:induction false} NothingForfeited(rows: seq<Row>, index: nat)
    ensures Forfeit(rows, index, 0) == (rows, 0)
  {
    if rows == [] {
    } else {
      NothingForfeited(rows[1..], index);
      assert [rows[0]] + rows[1..] == rows;
    }
  }

  // ------------------------------------------------------------------------- totals

  function Claims(rows: seq<Row>): (r: nat)
  {
    if rows == [] then 0 else rows[0].claim + Claims(rows[1..])
  }

  function Tranches(rows: seq<Row>): (r: nat)
  {
    if rows == [] then 0 else rows[0].pendingIf + Tranches(rows[1..])
  }

  /** What the pools together could pay of the claims. */
  function Fundable(rows: seq<Row>, index: nat): (r: nat)
  {
    if rows == [] then 0 else Payable(rows[0], index) + Fundable(rows[1..], index)
  }

  function Unfundable(rows: seq<Row>, index: nat): (r: nat)
  {
    if rows == [] then 0
    else SatSub(rows[0].claim, Tokens(rows[0].pool, index, PRECISION)) + Unfundable(rows[1..], index)
  }

  /** The greedy pass recovers the most that can be recovered: all that the pools can pay, or
  the whole bound, whichever is less. The deposit gains at most that. */
  lemma {:induction false} RecoverTakesAllItCan(rows: seq<Row>, index: nat, remaining: nat, deposit: nat)
    requires index > 0
    ensures var r := Recover(rows, index, remaining, deposit);
            && r.total == Min(remaining, Fundable(rows, index))
            && Claims(r.rows) == Claims(rows) - r.total
            && Tranches(r.rows) == Tranches(rows)
            && Tokens(deposit, index, PRECISION) <= Tokens(r.deposit, index, PRECISION)
                 <= Tokens(deposit, index, PRECISION) + r.total
  {
    hide ToScaled, PayRow, Tokens, Debits;
    if rows == [] {
    } else {
      var (row, x) := PayRow(rows[0], index, remaining);
      var dep := deposit + ToScaled(x, index, PRECISION);
      RecoverTakesAllItCan(rows[1..], index, remaining - x, dep);
      CreditAdds(deposit, x, index, PRECISION);
      var rest := Recover(rows[1..], index, remaining - x, dep);
      assert ([row] + rest.rows)[1..] == rest.rows;
    }
  }

  /** Row by row: a row's claim falls by what its pool pays, its insurance counter stays, and nothing
  later is touched before the row has paid all it can. */
  lemma {:induction false} RecoverRow(rows: seq<Row>, index: nat, remaining: nat, deposit: nat, i: nat, j: nat)
    requires index > 0 && i < |rows| && j < |rows|
    ensures var r := Recover(rows, index, remaining, deposit).rows; var paid := rows[i].claim - r[i].claim;
            && 0 <= paid <= Payable(rows[i], index)
            && r[i].pendingIf == rows[i].pendingIf
            && Debits(rows[i].pool, r[i].pool, paid, index, PRECISION)
            && (paid < Payable(rows[i], index) && i < j ==> r[j] == rows[j])
  {
    hide ToScaled, Payable, Debits;
    var (row, x) := PayRow(rows[0], index, remaining);
    var dep := deposit + ToScaled(x, index, PRECISION);
    if i > 0 {
      RecoverRow(rows[1..], index, remaining - x, dep, i - 1, if j > 0 then j - 1 else 0);
    } else if x == remaining {
      NothingRecovered(rows[1..], index, dep);
    }
  }

  /** Row by row: a forfeit moves only what the pool cannot pay, from the claim to that market's own
  insurance counter, leaves the pool alone, and goes on to the next row only with the whole of it. */
  lemma {:induction false} ForfeitRows(rows: seq<Row>, index: nat, remaining: nat, i: nat, j: nat)
    requires i < |rows| && j < |rows|
    ensures var r := Forfeit(rows, index, remaining).0; var x := rows[i].claim - r[i].claim;
            && 0 <= x <= SatSub(rows[i].claim, Tokens(rows[i].pool, index, PRECISION))
            && r[i].pool == rows[i].pool && r[i].pendingIf == rows[i].pendingIf + x
            && (x < SatSub(rows[i].claim, Tokens(rows[i].pool, index, PRECISION)) && i < j ==> r[j] == rows[j])
  {
    hide Tokens;
    var (row, x) := ForfeitRow(rows[0], index, remaining);
    if i > 0 {
      ForfeitRows(rows[1..], index, remaining - x, i - 1, if j > 0 then j - 1 else 0);
    } else if x == remaining {
      NothingForfeited(rows[1..], index);
    }
  }

  /** When the pools cannot cover the bound they are all paid out: what is left of the claims
  is unfundable, all of it. */
  lemma {:induction false} RecoverExhaustsPools(rows: seq<Row>, index: nat, remaining: nat, deposit: nat)
    requires index > 0 && Fundable(rows, index) <= remaining
    ensures var r := Recover(rows, index, remaining, deposit); Unfundable(r.rows, index) == Claims(r.rows)
  {
    hide ToScaled, PayRow, Tokens;
    if rows == [] {
    } else {
      var (row, x) := PayRow(rows[0], index, remaining);
      var dep := deposit + ToScaled(x, index, PRECISION);
      RecoverExhaustsPools(rows[1..], index, remaining - x, dep);
      var rest := Recover(rows[1..], index, remaining - x, dep);
      assert ([row] + rest.rows)[1..] == rest.rows;
    }
  }

  /** Forfeiting moves claims to the insurance tranches one for one: no more than the bound,
  and everything unfundable within it. */
  lemma {:induction false} ForfeitIsNeutral(rows: seq<Row>, index: nat, remaining: nat)
    ensures var (out, total) := Forfeit(rows, index, remaining);
            && total == Min(remaining, Unfundable(rows, index))
            && Claims(out) == Claims(rows) - total
            && Tranches(out) == Tranches(rows) + total
  {
    hide Tokens;
    if rows == [] {
    } else {
      var (row, x) := ForfeitRow(rows[0], index, remaining);
      ForfeitIsNeutral(rows[1..], index, remaining - x);
      var (rest, total) := Forfeit(rows[1..], index, remaining - x);
      assert ([row] + rest)[1..] == rest;
    }
  }

  // -------------------------------------------------------------------- the whole winding up

  datatype Outcome = Outcome(rows: seq<Row>, recovered: nat, setoff: nat, loss: nat, forfeited: nat)

  /** The steps of `resolve_perp_bankruptcy` before its tranches: recover what the deposit
  does not cover, set the deposit off against the debt, forfeit against the remaining loss. */
  function WindUp(rows: seq<Row>, index: nat, debt: nat, deposit: nat): (r: Outcome)
    requires index > 0
  {
    var rec := Recover(rows, index, SatSub(debt, Tokens(deposit, index, PRECISION)), deposit);
    var setoff := Min(Tokens(rec.deposit, index, PRECISION), debt);
    var loss := debt - setoff;
    if loss == 0 then Outcome(rec.rows, rec.total, setoff, 0, 0)
    else
      var (out, forfeited) := Forfeit(rec.rows, index, loss);
      Outcome(out, rec.total, setoff, loss, forfeited)
  }

  /** The forfeit never exceeds the loss and the markets' books stay neutral; the loss is what the
  deposit and the recovery leave of the debt, and rounding only on top. When the estate's
  means fall short of the debt, what it keeps is exactly the excess of its claims over the loss,
  and nothing if it is worth no more than its debt. When they suffice, others pay for rounding
  only: less than one index unit per row and one token. */
  lemma {:induction false} WindUpSplitsEstate(rows: seq<Row>, index: nat, debt: nat, deposit: nat)
    requires index > 0
    ensures var w := WindUp(rows, index, debt, deposit); var cash := Tokens(deposit, index, PRECISION);
            && w.recovered == Min(SatSub(debt, cash), Fundable(rows, index)) <= Claims(rows)
            && w.setoff + w.loss == debt && w.forfeited <= w.loss
            && debt - cash - w.recovered <= w.loss <= debt - Min(cash, debt)
            && (cash < debt ==>
                  w.loss * PRECISION < (debt - cash - w.recovered) * PRECISION + |rows| * index + PRECISION)
            && (cash >= debt ==> w == Outcome(rows, 0, debt, 0, 0))
            && Claims(w.rows) + Tranches(w.rows) == Claims(rows) + Tranches(rows) - w.recovered
            && (cash + Fundable(rows, index) < debt ==>
                  w.loss > 0 && Claims(w.rows) == SatSub(Claims(rows) - w.recovered, w.loss))
            && (cash + Fundable(rows, index) < debt && Claims(rows) + cash <= debt ==> Claims(w.rows) == 0)
            && (debt <= cash + Fundable(rows, index) ==> w.loss * PRECISION < |rows| * index + PRECISION)
  {
    hide Tokens, Recover, Forfeit, Fundable, Unfundable, Claims, Tranches;
    var cash := Tokens(deposit, index, PRECISION);
    RecoverTakesAllItCan(rows, index, SatSub(debt, cash), deposit);
    var rec := Recover(rows, index, SatSub(debt, cash), deposit);
    var loss := debt - Min(Tokens(rec.deposit, index, PRECISION), debt);
    ForfeitIsNeutral(rec.rows, index, loss);
    if cash + Fundable(rows, index) < debt {
      RecoverExhaustsPools(rows, index, SatSub(debt, cash), deposit);
    }
    if cash < debt {
      RecoverCredits(rows, index, debt - cash, deposit);
      LossIsRounding(deposit, rec.deposit, index, debt, rec.total, |rows|);
    } else {
      NothingRecovered(rows, index, deposit);
      MulMono(0, |rows|, index);
    }
  }

  lemma {:induction false} LossIsRounding(before: nat, after: nat, index: nat, debt: nat, total: nat, n: nat)
    requires before * index + total * PRECISION <= (after + n) * index
    requires total <= debt - Tokens(before, index, PRECISION)
    ensures (debt - Min(Tokens(after, index, PRECISION), debt)) * PRECISION
            < (debt - Tokens(before, index, PRECISION) - total) * PRECISION + n * index + PRECISION
  {
    hide Tokens;
    var cash, t := Tokens(before, index, PRECISION), Tokens(after, index, PRECISION);
    TokensBounds(before, index, PRECISION);
    TokensBounds(after, index, PRECISION);
    Distrib(index, after, n);
    Distrib(PRECISION, debt - cash, total);
    Distrib(PRECISION, debt, cash);
    Distrib(PRECISION, debt, t);
    MulMono(0, n, index);
  }

  /** Each recovered amount is credited short by less than one index unit. */
  lemma {:induction false} RecoverCredits(rows: seq<Row>, index: nat, remaining: nat, deposit: nat)
    requires index > 0
    ensures var r := Recover(rows, index, remaining, deposit);
            deposit * index + r.total * PRECISION <= (r.deposit + |rows|) * index
  {
    hide ToScaled, PayRow;
    if rows == [] {
    } else {
      var (_, x) := PayRow(rows[0], index, remaining);
      var credit := ToScaled(x, index, PRECISION);
      RecoverCredits(rows[1..], index, remaining - x, deposit + credit);
      ScaledBounds(x, index, PRECISION);
      var rest := Recover(rows[1..], index, remaining - x, deposit + credit);
      CreditStep(deposit, credit, rest.deposit, index, x, rest.total, |rows| - 1);
    }
  }

  lemma {:induction false} CreditStep(deposit: nat, credit: nat, after: nat, index: nat, x: nat, total: nat, n: nat)
    requires x * PRECISION < credit * index + index
    requires (deposit + credit) * index + total * PRECISION <= (after + n) * index
    ensures deposit * index + (x + total) * PRECISION <= (after + (n + 1)) * index
  {
    Distrib(index, deposit, credit);
    Distrib(index, after + n, 1);
  }

  /** What the pools' payments credit to the estate's deposit, each rounded down by itself. */
  function Credited(rows: seq<Row>, index: nat, remaining: nat): (r: nat)
    requires index > 0
  {
    if rows == [] then 0
    else
      var x := Min(Payable(rows[0], index), remaining);
      ToScaled(x, index, PRECISION) + Credited(rows[1..], index, remaining - x)
  }

  lemma {:induction false} RecoverDeposits(rows: seq<Row>, index: nat, remaining: nat, deposit: nat)
    requires index > 0
    ensures Recover(rows, index, remaining, deposit).deposit == deposit + Credited(rows, index, remaining)
  {
    hide ToScaled, PayRow, Payable;
    if rows == [] {
    } else {
      var (_, x) := PayRow(rows[0], index, remaining);
      RecoverDeposits(rows[1..], index, remaining - x, deposit + ToScaled(x, index, PRECISION));
    }
  }

  /** Others pay exactly when the deposit and the credits, valued together, do not reach the debt. */
  lemma {:induction false} OthersPayExactlyWhen(rows: seq<Row>, index: nat, debt: nat, deposit: nat)
    requires index > 0
    ensures WindUp(rows, index, debt, deposit).loss > 0
       <==> (deposit + Credited(rows, index, SatSub(debt, Tokens(deposit, index, PRECISION)))) * index
              < debt * PRECISION
  {
    hide Recover, Credited, Forfeit;
    var remaining := SatSub(debt, Tokens(deposit, index, PRECISION));
    RecoverDeposits(rows, index, remaining, deposit);
    DivGe((deposit + Credited(rows, index, remaining)) * index, PRECISION, debt);
  }

  /** An estate whose pool could pay its debt of one: the unit recovered is credited as 999 of
  the 1000 scaled units it is worth, so others pay it and the estate keeps a claim of one. */
  lemma {:induction false} RecoveredUnitIsLost()
    ensures var rows, index := [Row(2, 2999, 0)], 10_000_000_001;
            && Fundable(rows, index) >= 1
            && WindUp(rows, index, 1, 0) == Outcome([Row(1, 2000, 0)], 1, 0, 1, 0)
  {
    var rows, index := [Row(2, 2999, 0)], 10_000_000_001;
    assert |rows[1..]| == 0;
    assert Tokens(2999, index, PRECISION) == 2 && ToScaled(1, index, PRECISION) == 999;
    assert Tokens(2000, index, PRECISION) == 2 && Tokens(999, index, PRECISION) == 0;
    RecoverEmpty(index, 0, 999);
    RecoverUnfold(rows, 0, index, 1, 0);
    var row := Row(1, 2000, 0);
    assert PayRow(rows[0], index, 1) == (row, 1);
    assert rows[0..] == rows && rows[1..] == [];
    assert Recover(rows, index, 1, 0) == Recovery([row], 1, 999);
    assert Forfeit([row], index, 1) == ([row], 0) by {
      assert |[row][1..]| == 0;
      assert ForfeitRow(row, index, 1) == (row, 0);
    }
  }
}
