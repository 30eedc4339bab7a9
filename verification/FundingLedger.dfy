/** Funding over a whole run: positions settle lazily, at any time and in any order, and are opened,
changed, turned around and closed, while the market publishes rates and socializes losses. */
module FundingLedger {
  import opened Arith
  import opened Funding

  /** A position keeps the cumulative rate it last settled at. */
  datatype Position = Position(base: int, stamp: int)

  /** Cumulative rates, the AMM's own stamps, and three running totals in quote units:
  what users received, what the AMM received, and the losses socialized. */
  datatype Ledger = Ledger(
    cumLong: int, cumShort: int, ammLong: int, ammShort: int,
    users: int, amm: int, socialized: nat, positions: seq<Position>)

  datatype Event =
    | Publish(longRate: int, shortRate: int)
    | SettlePosition(who: nat)
    | Fill(who: nat, base: int)
    | Socialize(loss: nat)

  function Longs(ps: seq<Position>): (r: int)
    ensures r >= 0
  {
    if ps == [] then 0 else Max(ps[0].base, 0) + Longs(ps[1..])
  }

  function Shorts(ps: seq<Position>): (r: int)
    ensures r <= 0
  {
    if ps == [] then 0 else Min(ps[0].base, 0) + Shorts(ps[1..])
  }

  /** Open interest on both sides. */
  function Gross(ps: seq<Position>): (r: int)
    ensures r >= 0
  {
    Longs(ps) - Shorts(ps)
  }

  /** `calculate_funding_rate_deltas_to_resolve_bankruptcy` */
  function SocialDelta(loss: nat, gross: nat): (r: int)
    requires gross > 0
    ensures r >= 0
  {
    CeilDiv(loss * BASE_UNIT, gross) * RATE_TO_QUOTE
  }

  function SideRate(l: Ledger, p: Position): (r: int)
  {
    if p.base > 0 then l.cumLong else l.cumShort
  }

  /** The AMM settles against the current cumulative rates and moves its stamps to them. */
  function SettleAmm(l: Ledger): (r: Ledger)
  {
    var (long, short) := (Longs(l.positions), Shorts(l.positions));
    l.(amm := l.amm + AmmPayment(long, short, l.cumLong - l.ammLong, l.cumShort - l.ammShort),
       ammLong := l.cumLong, ammShort := l.cumShort)
  }

  /** A new size starts at its own side's rate; a closed position keeps none. */
  function Opened(l: Ledger, base: int): (r: Position)
  {
    if base == 0 then Position(0, 0) else Position(base, if base > 0 then l.cumLong else l.cumShort)
  }

  /** `settle_funding_payment` */
  function SettleOne(l: Ledger, j: nat): (r: Ledger)
    ensures |r.positions| == |l.positions|
  {
    if j >= |l.positions| || l.positions[j].base == 0 then l
    else
      var p := l.positions[j];
      var cum := SideRate(l, p);
      l.(users := l.users + UserPayment(cum - p.stamp, p.base),
         positions := l.positions[j := p.(stamp := cum)])
  }

  function Step(l: Ledger, e: Event): (r: Ledger)
  {
    match e
    case Publish(dl, ds) =>
      SettleAmm(l.(cumLong := l.cumLong + dl, cumShort := l.cumShort + ds))
    case SettlePosition(j) => SettleOne(l, j)
    case Fill(j, base) =>
      // a fill settles first
      var settled := SettleOne(l, j);
      var p := Opened(l, base);
      settled.(positions := if j < |l.positions| then settled.positions[j := p] else settled.positions + [p])
    case Socialize(loss) =>
      if loss == 0 || Gross(l.positions) == 0 then l
      else
        var d := SocialDelta(loss, Gross(l.positions));
        var settled := SettleAmm(l);
        // the stamps skip the bump: survivors bear the loss, the AMM does not
        settled.(cumLong := l.cumLong + d, cumShort := l.cumShort - d,
                 ammLong := l.cumLong + d, ammShort := l.cumShort - d,
                 socialized := l.socialized + loss)
  }

  function Run(l: Ledger, es: seq<Event>): (r: Ledger)
    decreases |es|
  {
    if es == [] then l else Run(Step(l, es[0]), es[1..])
  }

  /** The AMM is always settled up to the current rates. */
  predicate Stamped(l: Ledger)
  {
    l.ammLong == l.cumLong && l.ammShort == l.cumShort
  }

  /** What positions still owe, in units of one quote over QUOTE_TO_BASE. */
  function Outstanding(l: Ledger, ps: seq<Position>): (r: int)
  {
    if ps == [] then 0
    else (SideRate(l, ps[0]) - ps[0].stamp) * ps[0].base + Outstanding(l, ps[1..])
  }

  /** How far rounding may have moved the books, in the same units. */
  function Slack(l: Ledger, es: seq<Event>): (r: int)
    decreases |es|
  {
    if es == [] then 0
    else
      (match es[0]
       case Publish(_, _) => QUOTE_TO_BASE + 2 * RATE_UNIT
       case SettlePosition(_) => QUOTE_TO_BASE
       case Fill(_, _) => QUOTE_TO_BASE
       case Socialize(_) => RATE_TO_QUOTE * Gross(l.positions))
      + Slack(Step(l, es[0]), es[1..])
  }

  /** Users, the AMM and the losses they cover, against what is still owed. */
  function Imbalance(l: Ledger): (r: int)
  {
    QUOTE_TO_BASE * (l.users + l.amm + l.socialized) - Outstanding(l, l.positions)
  }

  // --------------------------------------------------------------- what one step does

  lemma {:induction false} OutstandingMoves(l: Ledger, m: Ledger, dl: int, ds: int, ps: seq<Position>)
    requires m.cumLong == l.cumLong + dl && m.cumShort == l.cumShort + ds
    ensures Outstanding(m, ps) == Outstanding(l, ps) + dl * Longs(ps) + ds * Shorts(ps)
  {
    if ps == [] {
    } else {
      var p := ps[0];
      OutstandingMoves(l, m, dl, ds, ps[1..]);
      Distrib(dl, Max(p.base, 0), Longs(ps[1..]));
      Distrib(ds, Min(p.base, 0), Shorts(ps[1..]));
      if p.base > 0 {
        Distrib(p.base, SideRate(l, p) - p.stamp, dl);
        assert ds * Min(p.base, 0) == 0;
      } else {
        Distrib(p.base, SideRate(l, p) - p.stamp, ds);
        assert dl * Max(p.base, 0) == 0;
        assert Min(p.base, 0) == p.base;
      }
    }
  }

  lemma {:induction false} OutstandingSettles(l: Ledger, ps: seq<Position>, j: nat)
    requires j < |ps|
    ensures var p := ps[j]; var ps' := ps[j := p.(stamp := SideRate(l, p))];
            && Outstanding(l, ps') == Outstanding(l, ps) - (SideRate(l, p) - p.stamp) * p.base
            && Longs(ps') == Longs(ps) && Shorts(ps') == Shorts(ps)
  {
    var p := ps[j];
    var ps' := ps[j := p.(stamp := SideRate(l, p))];
    if j == 0 {
      assert ps'[1..] == ps[1..];
      assert (SideRate(l, ps'[0]) - ps'[0].stamp) * ps'[0].base == 0;
    } else {
      assert ps'[1..] == ps[1..][j - 1 := p.(stamp := SideRate(l, p))];
      OutstandingSettles(l, ps[1..], j - 1);
    }
  }

  lemma {:induction false} OutstandingIgnoresTotals(l: Ledger, m: Ledger, ps: seq<Position>)
    requires m.cumLong == l.cumLong && m.cumShort == l.cumShort
    ensures Outstanding(m, ps) == Outstanding(l, ps)
  {
    if ps == [] {
    } else {
      OutstandingIgnoresTotals(l, m, ps[1..]);
    }
  }

  /** The AMM's settlement is within one quote unit and two raw units of the exact amount. */
  lemma {:induction false} AmmNearExact(long: int, short: int, dl: int, ds: int)
    ensures Abs(QUOTE_TO_BASE * AmmPayment(long, short, dl, ds) - (dl * long + ds * short))
            < QUOTE_TO_BASE + 2 * RATE_UNIT
  {
    hide AmmPayment;
    AmmIs(long, short, dl, ds);
    var a, b := dl * long, ds * short;
    TruncBounds(a, RATE_UNIT);
    TruncBounds(b, RATE_UNIT);
    TruncBounds(TruncDiv(a, RATE_UNIT) + TruncDiv(b, RATE_UNIT), QUOTE_RATIO);
  }

  lemma {:induction false} UserNearExact(delta: int, base: int)
    ensures Abs(QUOTE_TO_BASE * UserPayment(delta, base) + delta * base) < QUOTE_TO_BASE
  {
    hide UserPayment;
    UserIs(delta, base);
    TruncBounds(delta * base, QUOTE_TO_BASE);
  }

  /** The bump covers the loss and overshoots by less than one base unit's worth. */
  lemma {:induction false} SocialDeltaCovers(loss: nat, gross: nat)
    requires gross > 0
    ensures 0 <= SocialDelta(loss, gross) * gross - QUOTE_TO_BASE * loss < RATE_TO_QUOTE * gross
  {
    CeilBounds(loss * BASE_UNIT, gross);
    var q := CeilDiv(loss * BASE_UNIT, gross);
    Assoc(q, RATE_TO_QUOTE, gross);
  }

  lemma {:induction false} AmmZero(long: int, short: int)
    ensures AmmPayment(long, short, 0, 0) == 0
  {
  }

  lemma {:induction false} StepMovesLittle(l: Ledger, e: Event)
    requires Stamped(l)
    ensures Stamped(Step(l, e))
    ensures !e.Fill? ==> Gross(Step(l, e).positions) == Gross(l.positions)
    ensures Abs(Imbalance(Step(l, e)) - Imbalance(l)) <= Slack(l, [e])
  {
    hide Imbalance, Step;
    assert [e][1..] == [];
    match e
    case Publish(dl, ds) => PublishMovesLittle(l, dl, ds);
    case SettlePosition(j) => SettleMovesLittle(l, j);
    case Fill(j, base) => FillMovesLittle(l, j, base);
    case Socialize(loss) => SocializeMovesLittle(l, loss);
  }

  lemma {:induction false} PublishMovesLittle(l: Ledger, dl: int, ds: int)
    requires Stamped(l)
    ensures var m := Step(l, Publish(dl, ds));
            Stamped(m) && m.positions == l.positions
            && Abs(Imbalance(m) - Imbalance(l)) <= QUOTE_TO_BASE + 2 * RATE_UNIT
  {
    hide AmmPayment;
    var m, ps := Step(l, Publish(dl, ds)), l.positions;
    OutstandingMoves(l, m, dl, ds, ps);
    AmmNearExact(Longs(ps), Shorts(ps), dl, ds);
    assert m.amm == l.amm + AmmPayment(Longs(ps), Shorts(ps), dl, ds);
  }

  lemma {:induction false} SettleMovesLittle(l: Ledger, j: nat)
    requires Stamped(l)
    ensures var m := Step(l, SettlePosition(j));
            Stamped(m) && Gross(m.positions) == Gross(l.positions)
            && Abs(Imbalance(m) - Imbalance(l)) <= QUOTE_TO_BASE
  {
    hide UserPayment;
    var m, ps := Step(l, SettlePosition(j)), l.positions;
    if j < |ps| && ps[j].base != 0 {
      OutstandingSettles(l, ps, j);
      OutstandingIgnoresTotals(l, m, m.positions);
      UserNearExact(SideRate(l, ps[j]) - ps[j].stamp, ps[j].base);
    }
  }

  predicate OwesNothing(l: Ledger, p: Position)
  {
    p.base == 0 || p.stamp == SideRate(l, p)
  }

  /** A settled position owes nothing, so changing its size changes nothing that is owed. */
  lemma {:induction false} FillMovesLittle(l: Ledger, j: nat, base: int)
    requires Stamped(l)
    ensures var m := Step(l, Fill(j, base));
            Stamped(m) && Abs(Imbalance(m) - Imbalance(l)) <= QUOTE_TO_BASE
  {
    hide UserPayment, Outstanding;
    var settled, m := SettleOne(l, j), Step(l, Fill(j, base));
    SettleMovesLittle(l, j);
    assert settled == Step(l, SettlePosition(j));
    OutstandingIgnoresTotals(settled, m, m.positions);
    var p := Opened(l, base);
    if j < |l.positions| {
      OutstandingReplaced(settled, settled.positions, j, p);
    } else {
      OutstandingAppended(settled, settled.positions, p);
    }
  }

  /** What a fill does to the books: the old size is paid for what its side's rate moved, the new size
  starts at its own side's current rate, and no other position, rate or total moves. */
  lemma {:induction false} FillSettlesAndOpens(l: Ledger, j: nat, base: int)
    requires j < |l.positions|
    ensures var m, p := Step(l, Fill(j, base)), l.positions[j]; var q := m.positions[j];
            && m == l.(users := m.users, positions := l.positions[j := q])
            && m.users - l.users == (if p.base == 0 then 0 else UserPayment(SideRate(l, p) - p.stamp, p.base))
            && q.base == base && (base == 0 ==> q.stamp == 0)
            && (base > 0 ==> q.stamp == l.cumLong) && (base < 0 ==> q.stamp == l.cumShort)
  {
    hide UserPayment;
    var s := SettleOne(l, j);
    assert s.positions[j := Opened(l, base)] == l.positions[j := Opened(l, base)];
  }

  lemma {:induction false} OutstandingReplaced(l: Ledger, ps: seq<Position>, j: nat, p: Position)
    requires j < |ps| && OwesNothing(l, ps[j]) && OwesNothing(l, p)
    ensures Outstanding(l, ps[j := p]) == Outstanding(l, ps)
  {
    if j == 0 {
      assert ps[0 := p][1..] == ps[1..];
    } else {
      OutstandingReplaced(l, ps[1..], j - 1, p);
      assert ps[j := p][1..] == ps[1..][j - 1 := p];
    }
  }

  lemma {:induction false} OutstandingAppended(l: Ledger, ps: seq<Position>, p: Position)
    requires OwesNothing(l, p)
    ensures Outstanding(l, ps + [p]) == Outstanding(l, ps)
  {
    if ps == [] {
      assert (ps + [p])[1..] == [];
    } else {
      OutstandingAppended(l, ps[1..], p);
      assert (ps + [p])[1..] == ps[1..] + [p];
    }
  }

  lemma {:induction false} SocializeMovesLittle(l: Ledger, loss: nat)
    requires Stamped(l)
    ensures var m := Step(l, Socialize(loss));
            Stamped(m) && m.positions == l.positions
            && Abs(Imbalance(m) - Imbalance(l)) <= RATE_TO_QUOTE * Gross(l.positions)
  {
    hide AmmPayment, SocialDelta;
    var m, ps := Step(l, Socialize(loss)), l.positions;
    if loss != 0 && Gross(ps) != 0 {
      var d := SocialDelta(loss, Gross(ps));
      AmmZero(Longs(ps), Shorts(ps));
      OutstandingMoves(l, m, d, -d, ps);
      SocialDeltaCovers(loss, Gross(ps));
      assert d * Longs(ps) + -d * Shorts(ps) == d * Gross(ps) by { Distrib(d, Longs(ps), Shorts(ps)); }
    }
  }

  /** Over every interleaving of rate updates, lazy settlements, fills and socialized losses, what
  users and the AMM received plus the losses covered differs from what is still owed by less
  than one unit per settlement, a little over one per rate update, and one base unit's worth
  of rounding per socialized loss. */
  lemma {:induction false} RunConservesQuote(l: Ledger, es: seq<Event>)
    requires Stamped(l)
    ensures Stamped(Run(l, es))
    ensures Abs(Imbalance(Run(l, es)) - Imbalance(l)) <= Slack(l, es)
    decreases |es|
  {
    hide Imbalance, Step;
    if es == [] {
    } else {
      StepMovesLittle(l, es[0]);
      RunConservesQuote(Step(l, es[0]), es[1..]);
      assert [es[0]][1..] == [];
    }
  }

  // ------------------------------------------------------------------ lazily or at once

  /** How far an event moves the rate of one side. */
  function RateMove(l: Ledger, e: Event, long: bool): (r: int)
  {
    match e
    case Publish(longRate, shortRate) => if long then longRate else shortRate
    case Socialize(loss) =>
      if loss == 0 || Gross(l.positions) == 0 then 0
      else if long then SocialDelta(loss, Gross(l.positions)) else -SocialDelta(loss, Gross(l.positions))
    case _ => 0
  }

  function RateMoves(l: Ledger, es: seq<Event>, long: bool): (r: int)
    decreases |es|
  {
    if es == [] then 0 else RateMove(l, es[0], long) + RateMoves(Step(l, es[0]), es[1..], long)
  }

  /** The event does not concern position `j`. */
  predicate Spares(e: Event, j: nat)
  {
    (e.SettlePosition? || e.Fill?) ==> e.who != j
  }

  lemma {:induction false} StepSpares(l: Ledger, e: Event, j: nat)
    requires j < |l.positions| && Spares(e, j)
    ensures var m := Step(l, e);
            && j < |m.positions| && m.positions[j] == l.positions[j]
            && m.cumLong == l.cumLong + RateMove(l, e, true)
            && m.cumShort == l.cumShort + RateMove(l, e, false)
  {
    hide AmmPayment, UserPayment, SocialDelta, Longs, Shorts;
  }

  /** A position left alone through any run and then settled is paid for exactly what its side's rate
  moved since it was last stamped, and no other position is touched. */
  lemma {:induction false} LazySettlementPays(l: Ledger, es: seq<Event>, j: nat)
    requires j < |l.positions| && l.positions[j].base != 0
    requires forall e :: e in es ==> Spares(e, j)
    ensures var m := Run(l, es); var p := l.positions[j];
            var owed := SideRate(l, p) - p.stamp + RateMoves(l, es, p.base > 0);
            && j < |m.positions| && m.positions[j] == p
            && SideRate(m, p) == SideRate(l, p) + RateMoves(l, es, p.base > 0)
            && Step(m, SettlePosition(j))
               == m.(users := m.users + UserPayment(owed, p.base),
                     positions := m.positions[j := Position(p.base, p.stamp + owed)])
    decreases |es|
  {
    hide UserPayment;
    if es == [] {
    } else {
      assert Spares(es[0], j);
      StepSpares(l, es[0], j);
      hide Step;
      LazySettlementPays(Step(l, es[0]), es[1..], j);
    }
  }

  /** The same run with position `j` settled after every event. */
  function Eager(es: seq<Event>, j: nat): (r: seq<Event>)
  {
    if es == [] then [] else [es[0], SettlePosition(j)] + Eager(es[1..], j)
  }

  /** Two ledgers that differ only in when position `j` was stamped, and in what users were paid. */
  predicate SameBut(l: Ledger, m: Ledger, j: nat)
  {
    && j < |l.positions| && |m.positions| == |l.positions|
    && m == l.(users := m.users, positions := l.positions[j := m.positions[j]])
    && m.positions[j].base == l.positions[j].base
    && (l.positions[j].base == 0 ==> m.positions[j] == l.positions[j])
  }

  /** By how much the two differ, once what position `j` is still owed is counted. */
  function Drift(l: Ledger, m: Ledger, j: nat): (r: int)
    requires SameBut(l, m, j)
  {
    QUOTE_TO_BASE * (m.users - l.users) + (m.positions[j].stamp - l.positions[j].stamp) * l.positions[j].base
  }

  lemma {:induction false} SidesOfRestamped(ps: seq<Position>, j: nat, stamp: int)
    requires j < |ps|
    ensures var qs := ps[j := ps[j].(stamp := stamp)]; Longs(qs) == Longs(ps) && Shorts(qs) == Shorts(ps)
  {
    var qs := ps[j := ps[j].(stamp := stamp)];
    if j == 0 {
      assert qs[1..] == ps[1..];
    } else {
      assert qs[1..] == ps[1..][j - 1 := ps[j].(stamp := stamp)];
      SidesOfRestamped(ps[1..], j - 1, stamp);
    }
  }

  /** An event that spares the position keeps them alike. */
  lemma {:induction false} StepsAlike(l: Ledger, m: Ledger, e: Event, j: nat)
    requires SameBut(l, m, j) && Spares(e, j)
    ensures SameBut(Step(l, e), Step(m, e), j)
    ensures Drift(Step(l, e), Step(m, e), j) == Drift(l, m, j)
  {
    hide AmmPayment, UserPayment, SocialDelta, Longs, Shorts;
    SidesOfRestamped(l.positions, j, m.positions[j].stamp);
    StepSpares(l, e, j);
    StepSpares(m, e, j);
    StepUsers(l, m, e, j);
  }

  lemma {:induction false} StepUsers(l: Ledger, m: Ledger, e: Event, j: nat)
    requires SameBut(l, m, j) && Spares(e, j)
    requires Longs(m.positions) == Longs(l.positions) && Shorts(m.positions) == Shorts(l.positions)
    ensures SameBut(Step(l, e), Step(m, e), j)
    ensures Step(m, e).users - m.users == Step(l, e).users - l.users
  {
    hide AmmPayment, UserPayment, SocialDelta, Longs, Shorts;
  }

  /** Settling the position in one of them moves the drift by less than one unit. */
  lemma {:induction false} SettleDrifts(l: Ledger, m: Ledger, j: nat)
    requires SameBut(l, m, j)
    ensures SameBut(l, Step(m, SettlePosition(j)), j)
    ensures Abs(Drift(l, Step(m, SettlePosition(j)), j) - Drift(l, m, j)) < QUOTE_TO_BASE
  {
    hide UserPayment;
    var p := m.positions[j];
    if p.base != 0 {
      UserNearExact(SideRate(m, p) - p.stamp, p.base);
      var m' := Step(m, SettlePosition(j));
      assert m'.positions[j].stamp == SideRate(m, p);
      Distrib(p.base, SideRate(m, p) - p.stamp, p.stamp - l.positions[j].stamp);
    }
  }

  lemma {:induction false} EagerDrifts(l: Ledger, m: Ledger, es: seq<Event>, j: nat)
    requires SameBut(l, m, j) && forall e :: e in es ==> Spares(e, j)
    ensures SameBut(Run(l, es), Run(m, Eager(es, j)), j)
    ensures Abs(Drift(Run(l, es), Run(m, Eager(es, j)), j) - Drift(l, m, j)) <= QUOTE_TO_BASE * |es|
    decreases |es|
  {
    hide Step, Drift, SameBut;
    if es == [] {
    } else {
      var e := es[0];
      assert Spares(e, j);
      StepsAlike(l, m, e, j);
      SettleDrifts(Step(l, e), Step(m, e), j);
      var l1, m1 := Step(l, e), Step(Step(m, e), SettlePosition(j));
      EagerUnfolds(m, es, j);
      EagerDrifts(l1, m1, es[1..], j);
    }
  }

  lemma {:induction false} EagerUnfolds(m: Ledger, es: seq<Event>, j: nat)
    requires es != []
    ensures Run(m, Eager(es, j)) == Run(Step(Step(m, es[0]), SettlePosition(j)), Eager(es[1..], j))
  {
    hide Step;
    var rest := Eager(es[1..], j);
    assert Eager(es, j)[1..] == [SettlePosition(j)] + rest;
    assert ([SettlePosition(j)] + rest)[1..] == rest;
  }

  /** Settling a position once, after a run, or after every event of it leaves the same ledger, but
  for at most one quote unit of what it was paid for each event. */
  lemma {:induction false} LazyMatchesEager(l: Ledger, es: seq<Event>, j: nat)
    requires j < |l.positions| && forall e :: e in es ==> Spares(e, j)
    ensures var lazy, eager := Step(Run(l, es), SettlePosition(j)), Step(Run(l, Eager(es, j)), SettlePosition(j));
            && eager == lazy.(users := eager.users)
            && Abs(eager.users - lazy.users) <= |es| + 1
  {
    hide Run, UserPayment;
    EagerDrifts(l, l, es, j);
    var a, b := Run(l, es), Run(l, Eager(es, j));
    SettleDrifts(a, b, j);
    var b' := Step(b, SettlePosition(j));
    BothSettled(a, b', j);
  }

  lemma {:induction false} BothSettled(a: Ledger, b: Ledger, j: nat)
    requires SameBut(a, b, j) && OwesNothing(b, b.positions[j])
    ensures var a' := Step(a, SettlePosition(j));
            && b == a'.(users := b.users)
            && Abs(QUOTE_TO_BASE * (b.users - a'.users) - Drift(a, b, j)) < QUOTE_TO_BASE
  {
    hide UserPayment;
    var p := a.positions[j];
    if p.base == 0 {
      assert (b.positions[j].stamp - p.stamp) * p.base == 0;
    } else {
      UserNearExact(SideRate(a, p) - p.stamp, p.base);
      assert b.positions[j] == Position(p.base, SideRate(a, p));
    }
    assert b.positions == Step(a, SettlePosition(j)).positions;
  }

  /** Once a loss is socialized, publishing unchanged rates pays the AMM nothing: it does not
  collect on the bump. */
  lemma {:induction false} NoPhantomFunding(l: Ledger, loss: nat)
    requires Stamped(l)
    ensures Step(Step(l, Socialize(loss)), Publish(0, 0)).amm == l.amm
  {
    hide AmmPayment;
    AmmZero(Longs(l.positions), Shorts(l.positions));
  }

  /** What the surviving positions pay for one socialized loss, each rounded down. */
  function Levy(ps: seq<Position>, d: int): (r: int)
  {
    if ps == [] then 0
    else -UserPayment(if ps[0].base > 0 then d else -d, ps[0].base) + Levy(ps[1..], d)
  }

  /** Position by position the levy falls short of the loss by fewer units than there are
  positions, and exceeds it by less than one base unit's worth. */
  lemma {:induction false} LevyNearGross(ps: seq<Position>, d: int)
    requires d >= 0
    ensures QUOTE_TO_BASE * Levy(ps, d) <= d * Gross(ps)
    ensures QUOTE_TO_BASE * Levy(ps, d) + QUOTE_TO_BASE * |ps| >= d * Gross(ps)
    ensures ps != [] ==> QUOTE_TO_BASE * Levy(ps, d) + QUOTE_TO_BASE * |ps| > d * Gross(ps)
  {
    hide UserPayment;
    if ps == [] {
    } else {
      LevyNearGross(ps[1..], d);
      LevyOne(ps[0].base, d);
      assert Gross(ps) == Abs(ps[0].base) + Gross(ps[1..]);
      Distrib(d, Abs(ps[0].base), Gross(ps[1..]));
    }
  }

  lemma {:induction false} LevyOne(base: int, d: int)
    requires d >= 0
    ensures var paid := -UserPayment(if base > 0 then d else -d, base);
            QUOTE_TO_BASE * paid <= d * Abs(base) < QUOTE_TO_BASE * paid + QUOTE_TO_BASE
  {
    hide UserPayment;
    var rate := if base > 0 then d else -d;
    UserIs(rate, base);
    assert rate * base == d * Abs(base) by { if base <= 0 { assert -d * base == d * -base; } }
    MulMono(0, Abs(base), d);
    TruncBounds(rate * base, QUOTE_TO_BASE);
  }

  lemma {:induction false} LevyCoversLoss(ps: seq<Position>, loss: nat)
    requires Gross(ps) > 0
    ensures var paid := Levy(ps, SocialDelta(loss, Gross(ps)));
            paid > loss - |ps| && BASE_UNIT * (paid - loss) < Gross(ps)
  {
    hide SocialDelta;
    LevyNearGross(ps, SocialDelta(loss, Gross(ps)));
    SocialDeltaCovers(loss, Gross(ps));
  }
}
