/** A spot bankruptcy: the revenue pool and the insurance vault pay what they can, and the
rest is taken from depositors by lowering the index their balances are multiplied with. */
module SpotBankruptcy {
  import opened Arith
  import opened SpotBalance

  /** `calculate_cumulative_deposit_interest_delta_to_resolve_bankruptcy` */
  function Haircut(loss: nat, deposits: nat, index: nat, precision: nat): (r: int)
    requires precision > 0
    ensures r >= 0
  {
    var total := Tokens(deposits, index, precision);
    if total == 0 then 0
    else
      MulMono(0, loss, index);
      Min(CeilDiv(index * loss, total), SatSub(index, 1))
  }

  /** The cut is clamped exactly when an unclamped one would take the index to zero or below. */
  predicate Clamped(loss: nat, total: nat, index: nat)
  {
    index * loss > (index - 1) * total
  }

  /** The index never falls below one; unless clamped the cut covers the loss and exceeds it by
  less than one rounding step. */
  lemma {:induction false} HaircutBounds(loss: nat, deposits: nat, index: nat, precision: nat)
    requires precision > 0 && index >= 1 && Tokens(deposits, index, precision) > 0
    ensures var d := Haircut(loss, deposits, index, precision); var total := Tokens(deposits, index, precision);
            && index - d >= 1
            && (Clamped(loss, total, index) ==> d == index - 1)
            && (!Clamped(loss, total, index) ==> index * loss <= d * total < index * loss + total)
  {
    var total := Tokens(deposits, index, precision);
    MulMono(0, loss, index);
    CeilBounds(index * loss, total);
    CeilLeast(index * loss, total, index - 1);
    assert total * (index - 1) == (index - 1) * total;
  }

  function Sum(ds: seq<nat>): (r: nat)
  {
    if ds == [] then 0 else ds[0] + Sum(ds[1..])
  }

  /** What depositors can withdraw, each rounded down. */
  function Redeemable(ds: seq<nat>, index: nat, precision: nat): (r: nat)
    requires precision > 0
  {
    if ds == [] then 0 else Tokens(ds[0], index, precision) + Redeemable(ds[1..], index, precision)
  }

  lemma {:induction false} TokensSum(a: nat, b: nat, index: nat, precision: nat)
    requires precision > 0
    ensures var t := Tokens(a, index, precision) + Tokens(b, index, precision);
            t <= Tokens(a + b, index, precision) <= t + 1
  {
    Distrib(index, a, b);
    DivSum(a * index, b * index, precision);
  }

  lemma {:induction false} RedeemableWithin(ds: seq<nat>, index: nat, precision: nat)
    requires precision > 0
    ensures Redeemable(ds, index, precision) <= Tokens(Sum(ds), index, precision)
  {
    if ds == [] {
    } else {
      hide Tokens;
      RedeemableWithin(ds[1..], index, precision);
      TokensSum(ds[0], Sum(ds[1..]), index, precision);
    }
  }

  /** Rounding every deposit by itself loses less than a unit for each deposit but one. */
  lemma {:induction false} RedeemableNear(ds: seq<nat>, index: nat, precision: nat)
    requires precision > 0 && ds != []
    ensures Tokens(Sum(ds), index, precision) <= Redeemable(ds, index, precision) + |ds| - 1
  {
    hide Tokens;
    if |ds| == 1 {
      assert ds[1..] == [];
    } else {
      RedeemableNear(ds[1..], index, precision);
      TokensSum(ds[0], Sum(ds[1..]), index, precision);
    }
  }

  /** An unclamped cut leaves the depositors together at least the loss short of the claim they
  held in aggregate; what they can withdraw one by one, however the deposits are split, falls by
  at least the loss less one unit for each deposit but one. */
  lemma {:induction false} HaircutLowersClaims(loss: nat, ds: seq<nat>, index: nat, precision: nat)
    requires precision > 0 && index >= 1 && Tokens(Sum(ds), index, precision) > 0
    requires !Clamped(loss, Tokens(Sum(ds), index, precision), index)
    ensures var d := Haircut(loss, Sum(ds), index, precision);
            && index - d >= 0
            && Redeemable(ds, index - d, precision) + loss <= Tokens(Sum(ds), index, precision)
            && Redeemable(ds, index - d, precision) + loss <= Redeemable(ds, index, precision) + |ds| - 1
  {
    hide Haircut, Tokens, Clamped;
    HaircutBounds(loss, Sum(ds), index, precision);
    var d := Haircut(loss, Sum(ds), index, precision);
    RedeemableWithin(ds, index - d, precision);
    HaircutCovers(loss, Sum(ds), index, precision, d);
    NothingRedeemable(index, precision);
    RedeemableNear(ds, index, precision);
  }

  lemma {:induction false} NothingRedeemable(index: nat, precision: nat)
    requires precision > 0
    ensures Tokens(Sum([]), index, precision) == 0
  {
  }

  /** Dust hides a cut: four deposits just short of a token each, in a market of six decimals,
  could withdraw nothing before the loss of one either. */
  lemma {:induction false} DustHidesTheCut()
    ensures var ds, index, precision := [999, 999, 999, 999], 10_000_000_000, 10_000_000_000_000;
            && Sum(ds) == 3996 && Tokens(3996, index, precision) == 3 && !Clamped(1, 3, index)
            && Haircut(1, 3996, index, precision) == 3_333_333_334
            && Redeemable(ds, index, precision) == 0 == Redeemable(ds, index - 3_333_333_334, precision)
  {
    var i, j, p := 10_000_000_000, 6_666_666_666, 10_000_000_000_000;
    var d1: seq<nat>, d2: seq<nat> := [999], [999, 999];
    var d3: seq<nat>, d4: seq<nat> := [999, 999, 999], [999, 999, 999, 999];
    assert |d1[1..]| == 0 && d2[1..] == d1 && d3[1..] == d2 && d4[1..] == d3;
    assert Sum(d1) == 999 && Redeemable(d1, i, p) == 0 == Redeemable(d1, j, p);
    assert Sum(d2) == 1998 && Redeemable(d2, i, p) == 0 == Redeemable(d2, j, p);
    assert Sum(d3) == 2997 && Redeemable(d3, i, p) == 0 == Redeemable(d3, j, p);
  }

  /** In scaled units: the cut is worth at least the loss. */
  lemma {:induction false} HaircutCovers(loss: nat, deposits: nat, index: nat, precision: nat, d: int)
    requires precision > 0 && 0 <= d <= index && Tokens(deposits, index, precision) > 0
    requires index * loss <= d * Tokens(deposits, index, precision)
    ensures deposits * d >= loss * precision
    ensures Tokens(deposits, index - d, precision) + loss <= Tokens(deposits, index, precision)
  {
    hide Tokens;
    var total := Tokens(deposits, index, precision);
    TokensBounds(deposits, index, precision);
    CutWorth(loss, deposits, index, precision, d, total);
    TokensBounds(deposits, index - d, precision);
    var after := Tokens(deposits, index - d, precision);
    Distrib(deposits, index, d);
    Distrib(precision, after, loss);
    Distrib(precision, total, 1);
    assert (after + loss) * precision < (total + 1) * precision;
    MulCancel(after + loss, total + 1, precision);
  }

  lemma {:induction false} CutWorth(loss: nat, deposits: nat, index: nat, precision: nat, d: int, total: nat)
    requires d >= 0 && total > 0 && index >= 0
    requires index * loss <= d * total && total * precision <= deposits * index
    ensures deposits * d >= loss * precision
  {
    if index == 0 {
      assert total * precision <= 0;
      MulMono(1, total, precision);
      MulMono(0, d, deposits);
    } else {
      calc {
        (loss * precision) * index;
      == { Assoc(loss, precision, index); }
        (index * loss) * precision;
      <= { MulMono(index * loss, d * total, precision); }
        (d * total) * precision;
      == { Assoc(d, total, precision); }
        d * (total * precision);
      <= { MulMono(total * precision, deposits * index, d); }
        d * (deposits * index);
      == { Assoc(deposits, d, index); }
        (deposits * d) * index;
      }
      MulCancel(loss * precision, deposits * d, index);
    }
  }

  // ------------------------------------------------------------------- the resolution

  /** Scaled deposits and borrows with their indices, the scaled revenue pool (part of the
  deposits), the spot vault and the insurance vault in tokens. */
  datatype Spot = Spot(depositIndex: nat, borrowIndex: nat, deposits: nat, borrows: nat, revenuePool: nat,
                       vault: nat, insurance: nat, precision: nat)

  predicate Valid(m: Spot)
  {
    m.precision > 0 && m.depositIndex >= 1 && m.revenuePool <= m.deposits
  }

  /** Depositors' claims beyond what borrowers owe are in the vault, up to `slack` index units. */
  predicate Solvent(m: Spot, slack: int)
  {
    m.deposits * m.depositIndex <= m.borrows * m.borrowIndex + m.vault * m.precision + slack
  }

  datatype Split = Split(revenue: nat, insurance: nat, socialized: nat)

  /** `resolve_spot_bankruptcy` on a borrow of `scaled`. */
  function Resolve(m: Spot, scaled: nat): (r: (Spot, Split))
    requires Valid(m) && scaled <= m.borrows
  {
    var owed := Debt(scaled, m.borrowIndex, m.precision);
    var revenue := Min(owed, Tokens(m.revenuePool, m.depositIndex, m.precision));
    DebitKeeps(m.revenuePool, revenue, m.depositIndex, m.precision);
    var pool := Debit(m.revenuePool, revenue, m.depositIndex, m.precision).value;
    var deposits := m.deposits - (m.revenuePool - pool);
    var insurance := Min(owed - revenue, SatSub(m.insurance, 1));
    var social := owed - revenue - insurance;
    var cut := Haircut(social, deposits, m.depositIndex, m.precision);
    CutFits(social, deposits, m.depositIndex, m.precision);
    (m.(deposits := deposits, revenuePool := pool, borrows := m.borrows - scaled,
        depositIndex := m.depositIndex - cut, vault := m.vault + insurance, insurance := m.insurance - insurance),
     Split(revenue, insurance, social))
  }

  lemma {:induction false} CutFits(social: nat, deposits: nat, index: nat, precision: nat)
    requires precision > 0 && index >= 1
    ensures index - Haircut(social, deposits, index, precision) >= 1
  {
    if Tokens(deposits, index, precision) > 0 { HaircutBounds(social, deposits, index, precision); }
  }

  /** The part of the socialized loss that the cut did not take from depositors, in index units. */
  function Uncovered(m: Spot, m': Spot, s: Split): (r: int)
  {
    Max(s.socialized * m.precision - m'.deposits * (m.depositIndex - m'.depositIndex), 0)
  }

  /** The tranches pay the whole borrow in order and the insurance vault keeps a unit. A solvent
  market stays solvent to within one unit of the old index (the revenue-pool draw is rounded in
  the pool's favour) and what the cut left uncovered: nothing unless the cut is clamped, and then
  the index is down to one; or there are no deposits worth a token, and nothing is cut. */
  lemma {:induction false} ResolveKeepsSolvency(m: Spot, scaled: nat, slack: int)
    requires Valid(m) && scaled <= m.borrows && Solvent(m, slack)
    ensures var (m', s) := Resolve(m, scaled); var total := Tokens(m'.deposits, m.depositIndex, m.precision);
            && Valid(m')
            && s.revenue + s.insurance + s.socialized == Debt(scaled, m.borrowIndex, m.precision)
            && (s.insurance > 0 ==> Tokens(m.revenuePool, m.depositIndex, m.precision) == s.revenue)
            && (s.socialized > 0 ==> m'.insurance <= 1) && (m.insurance >= 1 ==> m'.insurance >= 1)
            && Solvent(m', slack + m.depositIndex + Uncovered(m, m', s))
            && (s.socialized == 0 ==> Uncovered(m, m', s) == 0)
            && (total > 0 && !Clamped(s.socialized, total, m.depositIndex) ==> Uncovered(m, m', s) == 0)
            && (total > 0 && Clamped(s.socialized, total, m.depositIndex) ==> m'.depositIndex == 1)
            && (total == 0 ==> m'.depositIndex == m.depositIndex)
  {
    hide Haircut, Tokens, ToScaled, Clamped, Debt;
    var (m', s) := Resolve(m, scaled);
    var i, p := m.depositIndex, m.precision;
    RevenueDraw(m, s.revenue);
    BorrowWorth(m, scaled);
    CutFits(s.socialized, m'.deposits, i, p);
    if s.socialized == 0 {
      NoCut(m'.deposits, i, p);
      assert Uncovered(m, m', s) == 0;
    }
    if Tokens(m'.deposits, i, p) > 0 {
      HaircutBounds(s.socialized, m'.deposits, i, p);
      if !Clamped(s.socialized, Tokens(m'.deposits, i, p), i) {
        HaircutCovers(s.socialized, m'.deposits, i, p, i - m'.depositIndex);
      }
    } else {
      WorthlessUncut(s.socialized, m'.deposits, i, p);
    }
    Balance(m, m', s, scaled, slack);
  }

  lemma {:induction false} WorthlessUncut(loss: nat, deposits: nat, index: nat, precision: nat)
    requires precision > 0 && Tokens(deposits, index, precision) == 0
    ensures Haircut(loss, deposits, index, precision) == 0
  {
  }

  lemma {:induction false} NoCut(deposits: nat, index: nat, precision: nat)
    requires precision > 0 && index >= 1
    ensures Haircut(0, deposits, index, precision) == 0
  {
    assert index * 0 == 0;
    if Tokens(deposits, index, precision) > 0 {
      CeilLeast(0, Tokens(deposits, index, precision), 0);
    }
  }

  /** A draw on the revenue pool removes its worth from the deposits, short by less than one
  index unit. */
  lemma {:induction false} RevenueDraw(m: Spot, x: nat)
    requires Valid(m) && x <= Tokens(m.revenuePool, m.depositIndex, m.precision)
    ensures var pool := Debit(m.revenuePool, x, m.depositIndex, m.precision).value;
            pool <= m.revenuePool && (m.revenuePool - pool) * m.depositIndex + m.depositIndex > x * m.precision
  {
    hide Tokens, ToScaled;
    DebitKeeps(m.revenuePool, x, m.depositIndex, m.precision);
    ScaledBounds(x, m.depositIndex, m.precision);
    var pool := Debit(m.revenuePool, x, m.depositIndex, m.precision).value;
    MulMono(ToScaled(x, m.depositIndex, m.precision), m.revenuePool - pool, m.depositIndex);
  }

  lemma {:induction false} BorrowWorth(m: Spot, scaled: nat)
    requires Valid(m) && scaled <= m.borrows
    ensures scaled * m.borrowIndex <= Debt(scaled, m.borrowIndex, m.precision) * m.precision
    ensures (m.borrows - scaled) * m.borrowIndex == m.borrows * m.borrowIndex - scaled * m.borrowIndex
  {
    MulMono(0, m.borrowIndex, scaled);
    CeilBounds(scaled * m.borrowIndex, m.precision);
    Distrib(m.borrowIndex, m.borrows, scaled);
  }

  lemma {:induction false} Balance(m: Spot, m': Spot, s: Split, scaled: nat, slack: int)
    requires Solvent(m, slack) && m.deposits >= m'.deposits && m.depositIndex >= m'.depositIndex
    requires m'.precision == m.precision && m'.borrowIndex == m.borrowIndex && m'.vault == m.vault + s.insurance
    requires (m.deposits - m'.deposits) * m.depositIndex + m.depositIndex > s.revenue * m.precision
    requires scaled * m.borrowIndex <= (s.revenue + s.insurance + s.socialized) * m.precision
    requires m'.borrows * m.borrowIndex == m.borrows * m.borrowIndex - scaled * m.borrowIndex
    ensures Solvent(m', slack + m.depositIndex + Uncovered(m, m', s))
  {
    var i, i', d, d', p := m.depositIndex, m'.depositIndex, m.deposits, m'.deposits, m.precision;
    Distrib(i, d, d');
    Distrib(d', i, i');
    Distrib(p, s.revenue + s.insurance, s.socialized);
    Distrib(p, s.revenue, s.insurance);
    Distrib(p, m.vault, s.insurance);
  }

  /** Where the borrow went, in full: the revenue pool is charged before the insurance vault, each
  pays all it may, and what they pay leaves them; the insurance payment arrives in the spot vault and
  the pool's leaves the deposits; the borrow is gone; and the index falls by the loss spread over the
  deposits, rounded up. */
  lemma {:induction false} ResolveMovesBooks(m: Spot, scaled: nat)
    requires Valid(m) && scaled <= m.borrows
    ensures var (m', s) := Resolve(m, scaled); var owed := s.revenue + s.insurance + s.socialized;
            && scaled * m.borrowIndex <= owed * m.precision < scaled * m.borrowIndex + m.precision
            && s.revenue == Min(owed, Tokens(m.revenuePool, m.depositIndex, m.precision))
            && s.insurance == Min(owed - s.revenue, SatSub(m.insurance, 1))
            && m' == m.(borrows := m.borrows - scaled, vault := m.vault + s.insurance,
                        insurance := m.insurance - s.insurance, revenuePool := m'.revenuePool,
                        deposits := m.deposits - (m.revenuePool - m'.revenuePool), depositIndex := m'.depositIndex)
            && Debits(m.revenuePool, m'.revenuePool, s.revenue, m.depositIndex, m.precision)
            && Cut(m, m', s.socialized)
  {
    hide Haircut, Tokens, ToScaled, Debt, Debits, Cut;
    var (m', s) := Resolve(m, scaled);
    DebtIs(scaled, m.borrowIndex, m.precision);
    DebitIs(m.revenuePool, s.revenue, m.depositIndex, m.precision);
    CutIs(m, m', s.socialized);
  }

  /** The deposit index fell so that the deposits of `m'` lose `loss`: nothing when there is no loss
  or nothing to take it from, down to one when they cannot bear it, and otherwise by the least
  that covers it. */
  predicate Cut(m: Spot, m': Spot, loss: nat)
    requires m.precision > 0
  {
    var total := Tokens(m'.deposits, m.depositIndex, m.precision); var cut := m.depositIndex - m'.depositIndex;
    && 0 <= cut < m.depositIndex
    && (loss == 0 || total == 0 ==> cut == 0)
    && (total > 0 && (m.depositIndex - 1) * total < m.depositIndex * loss ==> cut == m.depositIndex - 1)
    && (total > 0 && m.depositIndex * loss <= (m.depositIndex - 1) * total ==>
          m.depositIndex * loss <= cut * total < m.depositIndex * loss + total)
  }

  lemma {:induction false} CutIs(m: Spot, m': Spot, loss: nat)
    requires Valid(m) && m'.depositIndex == m.depositIndex - Haircut(loss, m'.deposits, m.depositIndex, m.precision)
    ensures Cut(m, m', loss)
  {
    hide Haircut, Tokens;
    NoCut(m'.deposits, m.depositIndex, m.precision);
    if Tokens(m'.deposits, m.depositIndex, m.precision) > 0 {
      HaircutBounds(loss, m'.deposits, m.depositIndex, m.precision);
    } else {
      WorthlessUncut(loss, m'.deposits, m.depositIndex, m.precision);
    }
  }

  lemma {:induction false} DebtIs(scaled: nat, index: nat, precision: nat)
    requires precision > 0
    ensures var owed := Debt(scaled, index, precision);
            scaled * index <= owed * precision < scaled * index + precision
  {
    MulMono(0, index, scaled);
    CeilBounds(scaled * index, precision);
  }
}
