/** The filler's weighted choice of makers. */
module MakerSelection {
  import opened Arith

  const PROBABILITY_PRECISION := 1000
  const MAX_MAKERS_PER_FILL := 6

  /** A resting order; what is filled never exceeds its size. */
  datatype Order = Order(base: nat, filled: nat)

  /** One entry of the maker map, which keeps insertion order. */
  datatype Entry = Entry(maker: string, orders: seq<Order>)

  predicate Resting(e: Entry)
  {
    forall i :: 0 <= i < |e.orders| ==> e.orders[i].filled <= e.orders[i].base
  }

  ghost predicate Valid(es: seq<Entry>)
  {
    && (forall i :: 0 <= i < |es| ==> Resting(es[i]))
    && (forall i, j :: 0 <= i < j < |es| ==> es[i].maker != es[j].maker)
  }

  function Unfilled(os: seq<Order>): (r: int)
  {
    if os == [] then 0 else Unfilled(os[..|os| - 1]) + os[|os| - 1].base - os[|os| - 1].filled
  }

  function Liquidity(e: Entry): (r: int)
  {
    Unfilled(e.orders)
  }

  function Total(es: seq<Entry>): (r: int)
  {
    if es == [] then 0 else Total(es[..|es| - 1]) + Liquidity(es[|es| - 1])
  }

  /** How many makers have liquidity. */
  function Backed(es: seq<Entry>): (r: nat)
    ensures r <= |es|
  {
    if es == [] then 0 else Backed(es[..|es| - 1]) + (if Liquidity(es[|es| - 1]) > 0 then 1 else 0)
  }

  /** A maker's weight in thousandths, rounded up. */
  function Weight(liquidity: nat, total: nat): (r: nat)
    requires total > 0
  {
    CeilDiv(liquidity * PROBABILITY_PRECISION, total)
  }

  /** Sum of the weights of the first `i` makers. */
  function Before(es: seq<Entry>, total: nat, i: nat): (r: nat)
    requires i <= |es| && total > 0
    requires forall k :: 0 <= k < |es| ==> Liquidity(es[k]) >= 0
  {
    if i == 0 then 0 else Before(es, total, i - 1) + Weight(Liquidity(es[i - 1]), total)
  }

  lemma {:induction false} UnfilledNonneg(os: seq<Order>)
    requires forall i :: 0 <= i < |os| ==> os[i].filled <= os[i].base
    ensures Unfilled(os) >= 0
  {
    if os == [] {
    } else {
      UnfilledNonneg(os[..|os| - 1]);
    }
  }

  lemma {:induction false} LiquidityNonneg(es: seq<Entry>)
    requires Valid(es)
    ensures forall i :: 0 <= i < |es| ==> Liquidity(es[i]) >= 0
  {
    forall i | 0 <= i < |es| ensures Liquidity(es[i]) >= 0 {
      assert Resting(es[i]);
      UnfilledNonneg(es[i].orders);
    }
  }

  /** Total is positive exactly when some maker has liquidity. */
  lemma {:induction false} TotalPositive(es: seq<Entry>)
    requires forall i :: 0 <= i < |es| ==> Liquidity(es[i]) >= 0
    ensures Total(es) >= 0
    ensures Total(es) > 0 <==> Backed(es) > 0
  {
    if es == [] {
    } else {
      TotalPositive(es[..|es| - 1]);
    }
  }

  /** A maker's slice is its part of the liquidity in thousandths, or less than one more. */
  lemma {:induction false} WeightNear(liquidity: nat, total: nat)
    requires total > 0
    ensures PROBABILITY_PRECISION * liquidity <= total * Weight(liquidity, total)
    ensures total * Weight(liquidity, total) <= PROBABILITY_PRECISION * liquidity + (total - 1)
  {
    CeilBounds(liquidity * PROBABILITY_PRECISION, total);
  }

  /** Rounding every weight up makes the weights reach a whole, so that no draw falls past the last,
  and pushes each slice back by less than one for every maker before it. */
  lemma {:induction false} WeightsCover(es: seq<Entry>, total: nat, i: nat)
    requires i <= |es| && total > 0
    requires forall k :: 0 <= k < |es| ==> Liquidity(es[k]) >= 0
    ensures PROBABILITY_PRECISION * Total(es[..i]) <= total * Before(es, total, i)
    ensures total * Before(es, total, i) <= PROBABILITY_PRECISION * Total(es[..i]) + i * (total - 1)
  {
    if i > 0 {
      hide Liquidity, Weight;
      WeightsCover(es, total, i - 1);
      assert es[..i][..i - 1] == es[..i - 1];
      var l := Liquidity(es[i - 1]);
      WeightNear(l, total);
      Distrib(total, Before(es, total, i - 1), Weight(l, total));
      Distrib(total - 1, i - 1, 1);
    }
  }

  lemma {:induction false} BeforeMono(es: seq<Entry>, total: nat, i: nat, j: nat)
    requires i <= j <= |es| && total > 0
    requires forall k :: 0 <= k < |es| ==> Liquidity(es[k]) >= 0
    ensures Before(es, total, i) <= Before(es, total, j)
  {
    if i < j { BeforeMono(es, total, i, j - 1); }
  }

  /** `index` is the maker whose slice of the line of weights holds the draw. */
  ghost predicate Holds(es: seq<Entry>, draw: real, index: nat)
    requires forall k :: 0 <= k < |es| ==> Liquidity(es[k]) >= 0
  {
    && index < |es| && Total(es) > 0
    && Before(es, Total(es), index) as real <= draw < Before(es, Total(es), index + 1) as real
  }

  /** A draw falls in one slice only. */
  lemma {:induction false} HolderIsUnique(es: seq<Entry>, draw: real, i: nat, j: nat)
    requires forall k :: 0 <= k < |es| ==> Liquidity(es[k]) >= 0
    requires Holds(es, draw, i) && Holds(es, draw, j)
    ensures i == j
  {
    if i < j {
      BeforeMono(es, Total(es), i + 1, j);
    } else if j < i {
      BeforeMono(es, Total(es), j + 1, i);
    }
  }

  /** A maker has some draw exactly when it has liquidity and its slice starts below a whole. */
  lemma {:induction false} ReachableExactlyWhen(es: seq<Entry>, index: nat)
    requires forall k :: 0 <= k < |es| ==> Liquidity(es[k]) >= 0
    requires index < |es| && Total(es) > 0
    ensures (exists draw: real :: 0.0 <= draw < 1000.0 && Holds(es, draw, index))
       <==> (Liquidity(es[index]) > 0 && Before(es, Total(es), index) < PROBABILITY_PRECISION)
  {
    var total := Total(es);
    var start := Before(es, total, index);
    WeightPositive(Liquidity(es[index]), total);
    if Liquidity(es[index]) > 0 && start < PROBABILITY_PRECISION {
      assert Holds(es, start as real, index);
    }
  }

  lemma {:induction false} WeightPositive(liquidity: nat, total: nat)
    requires total > 0
    ensures Weight(liquidity, total) > 0 <==> liquidity > 0
  {
    CeilLeast(liquidity * PROBABILITY_PRECISION, total, 0);
  }

  datatype Pick = Nobody | DivisionByZero | Chosen(index: nat)

  method MakerLiquidity(orders: seq<Order>) returns (r: int)
    ensures r == Unfilled(orders)
  {
    r := 0;
    for i := 0 to |orders|
      invariant r == Unfilled(orders[..i])
    {
      assert orders[..i + 1][..i] == orders[..i];
      r := r + (orders[i].base - orders[i].filled);
    }
    assert orders[..|orders|] == orders;
  }

  /** `draw` is the random number in thousandths. The choice is the slice that holds it, and the
  maker chosen has liquidity; with no liquidity at all the weights divide by zero. */
  method SelectMaker(es: seq<Entry>, draw: real) returns (r: Pick)
    requires Valid(es) && 0.0 <= draw < 1000.0
    ensures forall k :: 0 <= k < |es| ==> Liquidity(es[k]) >= 0
    ensures r.Nobody? <==> es == []
    ensures r.DivisionByZero? <==> es != [] && Backed(es) == 0
    ensures r.Chosen? ==> Holds(es, draw, r.index) && Liquidity(es[r.index]) > 0
  {
    LiquidityNonneg(es);
    if |es| == 0 {
      return Nobody;
    }
    TotalPositive(es);
    var total := SumLiquidity(es);
    if total == 0 {
      return DivisionByZero;
    }
    var weights := Weights(es, total);
    var makerIndex := FirstAbove(weights, draw, es, total);
    WeightPositive(Liquidity(es[makerIndex]), total);
    return Chosen(makerIndex);
  }

  method SumLiquidity(es: seq<Entry>) returns (total: int)
    ensures total == Total(es)
  {
    total := 0;
    for i := 0 to |es|
      invariant total == Total(es[..i])
    {
      assert es[..i + 1][..i] == es[..i];
      var l := MakerLiquidity(es[i].orders);
      total := total + l;
    }
    assert es[..|es|] == es;
  }

  method Weights(es: seq<Entry>, total: nat) returns (weights: seq<nat>)
    requires forall k :: 0 <= k < |es| ==> Liquidity(es[k]) >= 0
    requires total > 0
    ensures |weights| == |es|
    ensures forall k :: 0 <= k < |es| ==> weights[k] == Weight(Liquidity(es[k]), total)
  {
    weights := [];
    for i := 0 to |es|
      invariant |weights| == i
      invariant forall k :: 0 <= k < i ==> weights[k] == Weight(Liquidity(es[k]), total)
    {
      var l := MakerLiquidity(es[i].orders);
      weights := weights + [Weight(l, total)];
    }
  }

  /** The scan: it always stops inside, so index zero is never returned by default. */
  method FirstAbove(weights: seq<nat>, draw: real, ghost es: seq<Entry>, ghost total: nat) returns (makerIndex: nat)
    requires forall k :: 0 <= k < |es| ==> Liquidity(es[k]) >= 0
    requires total > 0 && total == Total(es) && |weights| == |es|
    requires forall k :: 0 <= k < |es| ==> weights[k] == Weight(Liquidity(es[k]), total)
    requires 0.0 <= draw < 1000.0
    ensures Holds(es, draw, makerIndex)
  {
    hide Liquidity, Total, Weight;
    makerIndex := 0;
    var sum := 0;
    var i := 0;
    while i < |weights|
      invariant 0 <= i <= |weights|
      invariant sum == Before(es, total, i) && sum as real <= draw
    {
      sum := sum + weights[i];
      if draw < sum as real {
        makerIndex := i;
        return;
      }
      i := i + 1;
    }
    WeightsCover(es, total, i);
    assert es[..i] == es;
    MulCancel(PROBABILITY_PRECISION, sum, total);
    assert false;
  }

  // ------------------------------------------------------------------- several makers

  function Makers(es: seq<Entry>): (r: set<string>)
  {
    set i | 0 <= i < |es| :: es[i].maker
  }

  /** The entries of makers outside `ms`, in order. */
  function Without(es: seq<Entry>, ms: set<string>): (r: seq<Entry>)
  {
    if es == [] then []
    else Without(es[..|es| - 1], ms) + (if es[|es| - 1].maker in ms then [] else [es[|es| - 1]])
  }

  lemma {:induction false} WithoutConcat(a: seq<Entry>, b: seq<Entry>, ms: set<string>)
    ensures Without(a + b, ms) == Without(a, ms) + Without(b, ms)
  {
    if b == [] {
      assert a + b == a;
    } else {
      assert (a + b)[..|a + b| - 1] == a + b[..|b| - 1];
      WithoutConcat(a, b[..|b| - 1], ms);
    }
  }

  lemma {:induction false} WithoutAbsent(es: seq<Entry>, ms: set<string>)
    requires forall i :: 0 <= i < |es| ==> es[i].maker !in ms
    ensures Without(es, ms) == es
  {
    if es == [] {
    } else {
      WithoutAbsent(es[..|es| - 1], ms);
      assert es == es[..|es| - 1] + [es[|es| - 1]];
    }
  }

  lemma {:induction false} WithoutTwice(es: seq<Entry>, ms: set<string>, ns: set<string>)
    ensures Without(Without(es, ms), ns) == Without(es, ms + ns)
  {
    if es == [] {
    } else {
      var rest, last := es[..|es| - 1], es[|es| - 1];
      WithoutTwice(rest, ms, ns);
      WithoutConcat(Without(rest, ms), if last.maker in ms then [] else [last], ns);
    }
  }

  function Removed(es: seq<Entry>, i: nat): (r: seq<Entry>)
    requires i < |es|
  {
    es[..i] + es[i + 1..]
  }

  /** Deleting a key from the map drops that entry and no other. */
  lemma {:induction false} RemovedIsWithout(es: seq<Entry>, i: nat)
    requires i < |es|
    requires forall k :: 0 <= k < |es| && k != i ==> es[k].maker != es[i].maker
    ensures Removed(es, i) == Without(es, {es[i].maker})
  {
    hide Without;
    var a, b := es[..i], es[i + 1..];
    assert es == a + ([es[i]] + b);
    WithoutMiddle(a, es[i], b);
  }

  lemma {:induction false} WithoutMiddle(a: seq<Entry>, e: Entry, b: seq<Entry>)
    requires forall k :: 0 <= k < |a| ==> a[k].maker != e.maker
    requires forall k :: 0 <= k < |b| ==> b[k].maker != e.maker
    ensures Without(a + ([e] + b), {e.maker}) == a + b
  {
    hide Without;
    var ms := {e.maker};
    calc {
      Without(a + ([e] + b), ms);
      { WithoutConcat(a, [e] + b, ms); }
      Without(a, ms) + Without([e] + b, ms);
      { WithoutConcat([e], b, ms); WithoutSelf(e); }
      Without(a, ms) + ([] + Without(b, ms));
      { WithoutAbsent(a, ms); WithoutAbsent(b, ms); }
      a + ([] + b);
      { assert [] + b == b; }
      a + b;
    }
  }

  lemma {:induction false} RemovedIsValid(es: seq<Entry>, i: nat)
    requires Valid(es) && i < |es|
    ensures Valid(Removed(es, i))
  {
    hide Resting;
    var rest := Removed(es, i);
    assert forall k :: 0 <= k < |rest| ==> rest[k] == if k < i then es[k] else es[k + 1];
  }

  lemma {:induction false} WithoutSelf(e: Entry)
    ensures Without([e], {e.maker}) == []
  {
    assert [e][..0] == [];
  }

  lemma {:induction false} BackedConcat(a: seq<Entry>, b: seq<Entry>)
    ensures Backed(a + b) == Backed(a) + Backed(b)
  {
    if b == [] {
      assert a + b == a;
    } else {
      assert (a + b)[..|a + b| - 1] == a + b[..|b| - 1];
      BackedConcat(a, b[..|b| - 1]);
    }
  }

  lemma {:induction false} BackedRemoved(es: seq<Entry>, i: nat)
    requires i < |es| && Liquidity(es[i]) > 0
    ensures Backed(Removed(es, i)) == Backed(es) - 1
  {
    hide Backed, Liquidity;
    assert es == es[..i] + ([es[i]] + es[i + 1..]);
    BackedConcat(es[..i], [es[i]] + es[i + 1..]);
    BackedConcat([es[i]], es[i + 1..]);
    BackedConcat(es[..i], es[i + 1..]);
    BackedOne(es[i]);
  }

  lemma {:induction false} BackedOne(e: Entry)
    ensures Backed([e]) == if Liquidity(e) > 0 then 1 else 0
  {
    assert [e][..0] == [];
  }

  /** What every iteration keeps: chosen and remaining entries split the original map. */
  ghost predicate Split(was: seq<Entry>, selected: seq<Entry>, rest: seq<Entry>)
  {
    && Valid(rest) && rest == Without(was, Makers(selected))
    && |selected| + |rest| == |was|
    && (forall i :: 0 <= i < |selected| ==> selected[i] in was && Liquidity(selected[i]) > 0)
    && (forall i, j :: 0 <= i < j < |selected| ==> selected[i].maker != selected[j].maker)
  }

  lemma {:induction false} WithoutMembers(es: seq<Entry>, ms: set<string>, e: Entry)
    requires e in Without(es, ms)
    ensures e in es && e.maker !in ms
  {
    if es[|es| - 1].maker in ms || e != es[|es| - 1] {
      WithoutMembers(es[..|es| - 1], ms, e);
    }
  }

  lemma {:induction false} SplitStep(was: seq<Entry>, selected: seq<Entry>, rest: seq<Entry>, i: nat)
    requires Split(was, selected, rest) && i < |rest| && Liquidity(rest[i]) > 0
    ensures Split(was, selected + [rest[i]], Removed(rest, i))
  {
    hide Liquidity;
    var e := rest[i];
    WithoutMembers(was, Makers(selected), e);
    RemovedIsWithout(rest, i);
    RemovedIsValid(rest, i);
    WithoutTwice(was, Makers(selected), {e.maker});
    MakersExtend(selected, e);
    forall k | 0 <= k < |selected| ensures selected[k].maker != e.maker {
      assert selected[k].maker in Makers(selected);
    }
  }

  lemma {:induction false} MakersExtend(es: seq<Entry>, e: Entry)
    ensures Makers(es + [e]) == Makers(es) + {e.maker}
  {
    var longer := es + [e];
    forall m | m in Makers(es) + {e.maker} ensures m in Makers(longer) {
      if m == e.maker {
        assert longer[|es|].maker == m;
      } else {
        var i :| 0 <= i < |es| && es[i].maker == m;
        assert longer[i].maker == m;
      }
    }
  }

  datatype Selection = Failed | Selected(entries: seq<Entry>)

  class MakerMap {
    var entries: seq<Entry>

    constructor (es: seq<Entry>)
      ensures entries == es
    {
      entries := es;
    }

    /** Up to six makers, each with liquidity and with its orders untouched, are moved out of the
    map. The selection fails exactly when fewer makers have liquidity than would be selected. */
    method SelectMakers(draws: seq<real>) returns (r: Selection)
      requires Valid(entries) && |draws| >= MAX_MAKERS_PER_FILL
      requires forall i :: 0 <= i < |draws| ==> 0.0 <= draws[i] < 1000.0
      modifies this
      ensures r.Selected? <==> old(Backed(entries)) >= Min(MAX_MAKERS_PER_FILL, |old(entries)|)
      ensures r.Selected? ==> |r.entries| == Min(MAX_MAKERS_PER_FILL, |old(entries)|)
      ensures r.Selected? ==> Split(old(entries), r.entries, entries)
    {
      hide Liquidity, Total, Before, Without, Makers, Removed;
      var selected: seq<Entry> := [];
      SplitStart(entries);
      ghost var was := entries;
      while |selected| < MAX_MAKERS_PER_FILL && |entries| > 0
        invariant |selected| <= MAX_MAKERS_PER_FILL
        invariant Split(was, selected, entries)
        invariant Backed(entries) == Backed(was) - |selected|
        decreases |entries|
      {
        var pick := SelectMaker(entries, draws[|selected|]);
        if pick.DivisionByZero? {
          return Failed;
        }
        var i := pick.index;
        SplitStep(was, selected, entries, i);
        BackedRemoved(entries, i);
        RemovedLength(entries, i);
        selected := selected + [entries[i]];
        entries := Removed(entries, i);
      }
      return Selected(selected);
    }
  }

  /** Two makers, one of them without liquidity: the selection fails whatever the draws. */
  method IdleMakerFails(draws: seq<real>) returns (r: Selection)
    requires |draws| >= MAX_MAKERS_PER_FILL && forall i :: 0 <= i < |draws| ==> 0.0 <= draws[i] < 1000.0
    ensures r == Failed
  {
    var es := [Entry("a", [Order(1, 0)]), Entry("b", [Order(1, 1)])];
    IdleMaker(es);
    var makers := new MakerMap(es);
    r := makers.SelectMakers(draws);
  }

  lemma {:induction false} IdleMaker(es: seq<Entry>)
    requires es == [Entry("a", [Order(1, 0)]), Entry("b", [Order(1, 1)])]
    ensures Valid(es) && Backed(es) == 1
  {
    assert es[..1] == [es[0]];
    BackedOne(es[0]);
    assert [Order(1, 0)][..0] == [] && [Order(1, 1)][..0] == [];
    assert Liquidity(es[0]) == 1 && Liquidity(es[1]) == 0;
    assert forall i :: 0 <= i < |es| ==> Resting(es[i]);
  }

  lemma {:induction false} RemovedLength(es: seq<Entry>, i: nat)
    requires i < |es|
    ensures |Removed(es, i)| == |es| - 1
  {}

  lemma {:induction false} SplitStart(es: seq<Entry>)
    requires Valid(es)
    ensures Split(es, [], es)
  {
    WithoutAbsent(es, Makers([]));
  }
}
