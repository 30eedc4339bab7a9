/** The deploy scripts' repeg: move a market's mark price next to the oracle, from its own side. */
module Repeg {
  import opened Arith

  /** The reserves of a pool; both are positive in every initialised market. */
  datatype Pool = Pool(base: nat, quote: nat)

  predicate Live(c: Pool)
  {
    c.base > 0 && c.quote > 0
  }

  function Mark(c: Pool, peg: nat): (r: nat)
    requires Live(c)
  {
    c.quote * peg / c.base
  }

  /** One percent short of the oracle, on the side `mark` is on. */
  function Target(oracle: nat, mark: nat): (r: nat)
  {
    if mark > oracle then oracle + oracle / 100 else oracle - oracle / 100
  }

  function PegFor(c: Pool, target: nat): (r: nat)
    requires Live(c)
  {
    target * c.base / c.quote
  }

  predicate Close(oracle: nat, mark: nat)
  {
    Abs(mark - oracle) <= oracle / 50
  }

  datatype Plan = NoOracle | WithinTolerance | Repeg(peg: nat)

  /** What the script decides for one market. */
  function Decide(c: Pool, peg: nat, oracle: int): (r: Plan)
    requires Live(c)
  {
    if oracle <= 0 then NoOracle
    else if Close(oracle, Mark(c, peg)) then WithinTolerance
    else Repeg(PegFor(c, Target(oracle, Mark(c, peg))))
  }

  /** The peg chosen is the greatest whose price does not exceed the target. */
  lemma {:induction false} PegIsGreatest(c: Pool, target: nat, peg: nat)
    requires Live(c)
    ensures peg <= PegFor(c, target) <==> c.quote * peg <= target * c.base
    ensures Mark(c, PegFor(c, target)) <= target
  {
    DivGe(target * c.base, c.quote, peg);
    var best := PegFor(c, target);
    DivGe(target * c.base, c.quote, best);
    DivMono(c.quote * best, target * c.base, c.base);
    DivExact(target, c.base);
  }

  lemma {:induction false} MarkAtLeast(c: Pool, peg: nat, low: nat)
    requires Live(c)
    ensures Mark(c, peg) >= low <==> c.quote * peg >= c.base * low
  {
    DivGe(c.quote * peg, c.base, low);
  }

  /** The new mark is at or above `low` exactly when some whole peg prices between the two. */
  lemma {:induction false} ReachesExactlyWhen(c: Pool, target: nat, low: nat)
    requires Live(c)
    ensures Mark(c, PegFor(c, target)) >= low
       <==> (exists peg: nat :: Mark(c, peg) >= low && c.quote * peg <= target * c.base)
  {
    var best := PegFor(c, target);
    PegIsGreatest(c, target, best);
    if peg: nat :| Mark(c, peg) >= low && c.quote * peg <= target * c.base {
      PegIsGreatest(c, target, peg);
      MarkAtLeast(c, peg, low);
      MarkAtLeast(c, best, low);
      MulMono(peg, best, c.quote);
    }
  }

  /** One unit of peg moves the price by quote/base: the new mark falls short of the target by at
  most that much, rounded up. */
  lemma {:induction false} ShortOfTarget(c: Pool, target: nat, step: nat)
    requires Live(c) && c.quote <= c.base * step
    ensures target <= Mark(c, PegFor(c, target)) + step
  {
    if step <= target {
      var best := PegFor(c, target);
      DivBounds(target * c.base, c.quote);
      Distrib(c.base, target, step);
      MarkAtLeast(c, best, target - step);
    }
  }

  /** One repeg from anywhere outside the tolerance band, when a unit of peg is worth at most one
  percent of the oracle: the new mark is strictly nearer, on the same side, inside the band, and
  the script run again does nothing. */
  lemma {:induction false} RepegConverges(c: Pool, peg: nat, oracle: nat)
    requires Live(c) && oracle > 0 && c.quote <= c.base * (oracle / 100)
    requires Decide(c, peg, oracle).Repeg?
    ensures var mark := Mark(c, peg);
            var next := Mark(c, Decide(c, peg, oracle).peg);
            && Abs(next - oracle) < Abs(mark - oracle)
            && (mark > oracle ==> oracle <= next < mark)
            && (mark < oracle ==> mark < next <= oracle)
    ensures Decide(c, Decide(c, peg, oracle).peg, oracle) == WithinTolerance
  {
    var target := Target(oracle, Mark(c, peg));
    PegIsGreatest(c, target, 0);
    ShortOfTarget(c, target, oracle / 100);
  }

  /** Where a repeg lands: one percent of the oracle away from it on the mark's own side, or short of
  that by at most what a unit of peg is worth. */
  lemma {:induction false} RepegAimsOnePercent(c: Pool, peg: nat, oracle: nat, step: nat)
    requires Live(c) && oracle > 0 && c.quote <= c.base * step
    requires Decide(c, peg, oracle).Repeg?
    ensures var next := Mark(c, Decide(c, peg, oracle).peg);
            && (Mark(c, peg) > oracle ==> oracle + oracle / 100 - step <= next <= oracle + oracle / 100)
            && (Mark(c, peg) < oracle ==> oracle - oracle / 100 - step <= next <= oracle - oracle / 100)
  {
    hide PegFor;
    var target := Target(oracle, Mark(c, peg));
    PegIsGreatest(c, target, 0);
    ShortOfTarget(c, target, step);
  }

  /** What flooring the peg leaves off the target, in units of `base`. */
  function Remainder(c: Pool, target: nat): (r: nat)
    requires Live(c)
  {
    (target * c.base) % c.quote
  }

  /** The new mark is at or above `low` exactly when the remainder fits between `low` and the target. */
  lemma {:induction false} ReachesByRemainder(c: Pool, target: nat, low: nat)
    requires Live(c) && low <= target
    ensures Mark(c, PegFor(c, target)) >= low <==> Remainder(c, target) <= c.base * (target - low)
  {
    var best := PegFor(c, target);
    ModIs(target * c.base, c.quote);
    MarkAtLeast(c, best, low);
    Distrib(c.base, target, low);
  }

  /** In general a repeg from above crosses the oracle exactly when the remainder is worth more
  than one percent of it; from below it never crosses. */
  lemma {:induction false} CrossesExactlyWhen(c: Pool, peg: nat, oracle: nat)
    requires Live(c) && oracle > 0
    requires Decide(c, peg, oracle).Repeg?
    ensures var next := Mark(c, Decide(c, peg, oracle).peg);
            if Mark(c, peg) > oracle then
              next < oracle <==> Remainder(c, oracle + oracle / 100) > c.base * (oracle / 100)
            else next <= oracle
  {
    hide Remainder;
    var target := Target(oracle, Mark(c, peg));
    PegIsGreatest(c, target, 0);
    if Mark(c, peg) > oracle {
      ReachesByRemainder(c, target, oracle);
    }
  }

  /** In general a second run does nothing exactly when the remainder fits between the bottom of
  the tolerance band and the target. */
  lemma {:induction false} SettlesExactlyWhen(c: Pool, peg: nat, oracle: nat)
    requires Live(c) && oracle > 0
    requires Decide(c, peg, oracle).Repeg?
    ensures var target := Target(oracle, Mark(c, peg));
            && target >= oracle - oracle / 50
            && (Decide(c, Decide(c, peg, oracle).peg, oracle) == WithinTolerance
                <==> Remainder(c, target) <= c.base * (target - (oracle - oracle / 50)))
  {
    hide Remainder;
    var target := Target(oracle, Mark(c, peg));
    PegIsGreatest(c, target, 0);
    ReachesByRemainder(c, target, oracle - oracle / 50);
  }

  /** No other peg would have done better: a mark the repeg does not reach without passing the
  target, no whole peg reaches. */
  lemma {:induction false} NoPegReachesFurther(c: Pool, peg: nat, target: nat)
    requires Live(c) && c.quote * peg <= target * c.base
    ensures Mark(c, peg) <= Mark(c, PegFor(c, target))
  {
    ReachesExactlyWhen(c, target, Mark(c, peg));
  }

  /** A coarse peg crosses: at ordinary reserves a unit of peg is too much for an oracle price of
  40, whose percent is nothing. A mark of 60 is repegged from above to 39, and run again from
  below it stays there. */
  lemma {:induction false} CoarsePegCrosses()
    ensures var c := Pool(100_000_000_000_000, 100_000_000_000_001);
            && Decide(c, 60, 40) == Repeg(39)
            && Mark(c, 60) > 40 > Mark(c, 39)
            && Decide(c, 39, 40) == Repeg(39)
  {
  }
}
