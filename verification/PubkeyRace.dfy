/** Two processes synchronise the same list of user keys, each in steps: read, remove, append. */
module PubkeyRace {
  import opened PubkeyList

  /** A synchronisation not yet started, or one that has read the list: what it has still to remove
  and to append, and how often each key had been appended by anybody when it read. */
  datatype Sync = Idle(latest: seq<Key>) | Working(toRemove: seq<Key>, toAdd: seq<Key>, seen: map<Key, nat>)

  /** `added` counts the appends of each key; the programs do not keep it. */
  datatype State = State(list: seq<Key>, added: map<Key, nat>, syncs: seq<Sync>)

  /** Batches may be of any size; removals come before appends. */
  datatype Event =
    | Arrive(latest: seq<Key>)
    | Read(id: nat)
    | Remove(id: nat, size: nat)
    | Append(id: nat, size: nat)

  function Count(added: map<Key, nat>, k: Key): (r: nat)
  {
    if k in added then added[k] else 0
  }

  function Bumped(added: map<Key, nat>, batch: seq<Key>): (r: map<Key, nat>)
  {
    map k | k in added.Keys + (set x | x in batch) :: Count(added, k) + if k in batch then 1 else 0
  }

  function Cut(xs: seq<Key>, size: nat): (r: nat)
    ensures r <= |xs|
  {
    if size <= |xs| then size else |xs|
  }

  predicate Appends(s: State, e: Event)
  {
    && e.Append? && e.id < |s.syncs| && s.syncs[e.id].Working? && s.syncs[e.id].toRemove == []
  }

  /** The keys an append puts on the list. */
  function Batch(s: State, e: Event): (r: seq<Key>)
    requires Appends(s, e)
  {
    var toAdd := s.syncs[e.id].toAdd;
    toAdd[..Cut(toAdd, e.size)]
  }

  function Step(s: State, e: Event): (r: State)
  {
    match e
    case Arrive(latest) => s.(syncs := s.syncs + [Idle(latest)])
    case Read(id) =>
      if id < |s.syncs| && s.syncs[id].Idle? then
        var latest := s.syncs[id].latest;
        s.(syncs := s.syncs[id := Working(Filter(s.list, latest, false), Filter(latest, s.list, false), s.added)])
      else s
    case Remove(id, size) =>
      if id < |s.syncs| && s.syncs[id].Working? then
        var w := s.syncs[id];
        var n := Cut(w.toRemove, size);
        s.(list := Filter(s.list, w.toRemove[..n], false), syncs := s.syncs[id := w.(toRemove := w.toRemove[n..])])
      else s
    case Append(id, size) =>
      if Appends(s, e) then
        var w := s.syncs[id];
        s.(list := s.list + Batch(s, e), added := Bumped(s.added, Batch(s, e)),
           syncs := s.syncs[id := w.(toAdd := w.toAdd[Cut(w.toAdd, size)..])])
      else s
  }

  function Run(s: State, es: seq<Event>): (r: State)
    decreases |es|
  {
    if es == [] then s else Step(Run(s, es[..|es| - 1]), es[|es| - 1])
  }

  /** What a synchronisation holds: keys without repeats, and each key it has still to append is
  missing from the list unless it was appended since. */
  ghost predicate SyncOk(s: State, w: Sync)
  {
    match w
    case Idle(latest) => Distinct(latest)
    case Working(_, toAdd, seen) =>
      && Distinct(toAdd)
      && forall k :: k in toAdd ==>
           Count(seen, k) <= Count(s.added, k) && (Count(seen, k) == Count(s.added, k) ==> k !in s.list)
  }

  ghost predicate Inv(s: State)
  {
    forall i :: 0 <= i < |s.syncs| ==> SyncOk(s, s.syncs[i])
  }

  /** A snapshot's keys are the keys of a map. */
  ghost predicate Proper(e: Event)
  {
    e.Arrive? ==> Distinct(e.latest)
  }

  lemma {:induction false} StepKeepsInv(s: State, e: Event)
    requires Inv(s) && Proper(e)
    ensures Inv(Step(s, e))
  {
    hide Filter, SyncOk, Bumped;
    var t := Step(s, e);
    forall i | 0 <= i < |t.syncs| ensures SyncOk(t, t.syncs[i]) {
      match e
      case Arrive(latest) => if i == |s.syncs| { IdleOk(t, latest); } else { OthersOk(s, t, s.syncs[i]); }
      case Read(id) => if i == id && s.syncs[i].Idle? { ReadOk(s, i); } else { OthersOk(s, t, s.syncs[i]); }
      case Remove(id, size) => RemoveOk(s, id, size, i);
      case Append(id, size) => AppendOk(s, id, size, i);
    }
  }

  lemma {:induction false} IdleOk(s: State, latest: seq<Key>)
    requires Distinct(latest)
    ensures SyncOk(s, Idle(latest))
  {
  }

  lemma {:induction false} OthersOk(s: State, t: State, w: Sync)
    requires SyncOk(s, w) && t.list == s.list && t.added == s.added
    ensures SyncOk(t, w)
  {
  }

  lemma {:induction false} ReadOk(s: State, i: nat)
    requires i < |s.syncs| && s.syncs[i].Idle? && SyncOk(s, s.syncs[i])
    ensures var t := Step(s, Read(i)); SyncOk(t, t.syncs[i])
  {
    hide Filter;
    var latest := s.syncs[i].latest;
    FilterDistinct(latest, s.list, false);
    forall k | k in Filter(latest, s.list, false) ensures k !in s.list {
      FilterMembers(latest, s.list, false, k);
    }
  }

  lemma {:induction false} RemoveOk(s: State, id: nat, size: nat, i: nat)
    requires i < |s.syncs| && SyncOk(s, s.syncs[i])
    ensures var t := Step(s, Remove(id, size)); i < |t.syncs| && SyncOk(t, t.syncs[i])
  {
    hide Filter;
    if id < |s.syncs| && s.syncs[id].Working? {
      var gone := s.syncs[id].toRemove[..Cut(s.syncs[id].toRemove, size)];
      forall k | k in Filter(s.list, gone, false) ensures k in s.list {
        FilterMembers(s.list, gone, false, k);
      }
    }
  }

  lemma {:induction false} AppendOk(s: State, id: nat, size: nat, i: nat)
    requires Inv(s) && i < |s.syncs|
    ensures var t := Step(s, Append(id, size)); i < |t.syncs| && SyncOk(t, t.syncs[i])
  {
    var e := Append(id, size);
    assert SyncOk(s, s.syncs[i]);
    if Appends(s, e) {
      hide Filter;
      var t := Step(s, e);
      forall k ensures Count(t.added, k) == Count(s.added, k) + if k in Batch(s, e) then 1 else 0 {}
      assert forall k :: k in t.list <==> k in s.list || k in Batch(s, e);
      if i == id && t.syncs[i].Working? {
        var all, n := s.syncs[i].toAdd, Cut(s.syncs[i].toAdd, size);
        assert all == Batch(s, e) + t.syncs[i].toAdd;
      }
    }
  }

  /** A synchronised list without repeats gets one exactly when an append puts on a key that is
  there already; and that key was appended by somebody since the synchronisation read the list. */
  lemma {:induction false} RepeatsExactlyWhen(s: State, e: Event)
    requires Inv(s) && Distinct(s.list)
    ensures !Distinct(Step(s, e).list) <==> Appends(s, e) && exists k :: k in Batch(s, e) && k in s.list
    ensures !Distinct(Step(s, e).list) ==> !Undisturbed(s, e)
  {
    if Appends(s, e) {
      assert SyncOk(s, s.syncs[e.id]);
      var all, batch := s.syncs[e.id].toAdd, Batch(s, e);
      assert forall k :: k in batch ==> k in all;
      ConcatDistinct(s.list, batch);
    } else if e.Remove? && e.id < |s.syncs| && s.syncs[e.id].Working? {
      var gone := s.syncs[e.id].toRemove;
      FilterDistinct(s.list, gone[..Cut(gone, e.size)], false);
    }
  }

  lemma {:induction false} ConcatDistinct(a: seq<Key>, b: seq<Key>)
    requires Distinct(a) && Distinct(b)
    ensures Distinct(a + b) <==> forall k :: k in b ==> k !in a
  {
    if k :| k in b && k in a {
      var i :| 0 <= i < |a| && a[i] == k;
      var j :| 0 <= j < |b| && b[j] == k;
      assert (a + b)[i] == (a + b)[|a| + j];
    } else {
      forall i, j | 0 <= i < j < |a + b| ensures (a + b)[i] != (a + b)[j] {
        if i < |a| <= j {
          assert b[j - |a|] in b;
        }
      }
    }
  }

  /** If the event appends, none of its keys was appended since its synchronisation read. */
  predicate Undisturbed(s: State, e: Event)
  {
    Appends(s, e) ==> forall k :: k in Batch(s, e) ==> Count(s.syncs[e.id].seen, k) == Count(s.added, k)
  }

  predicate AllUndisturbed(s: State, es: seq<Event>)
    decreases |es|
  {
    es != [] ==> AllUndisturbed(s, es[..|es| - 1]) && Undisturbed(Run(s, es[..|es| - 1]), es[|es| - 1])
  }

  /** Over every interleaving of any number of synchronisations in which no key is appended by
  another between the read and the append of one, the list stays without repeats. */
  lemma {:induction false} RunKeepsDistinct(s: State, es: seq<Event>)
    requires Inv(s) && Distinct(s.list) && AllUndisturbed(s, es)
    requires forall e :: e in es ==> Proper(e)
    ensures Inv(Run(s, es)) && Distinct(Run(s, es).list)
    decreases |es|
  {
    hide Step, Inv, Distinct, Undisturbed, Proper;
    if es == [] {
    } else {
      var rest, last := es[..|es| - 1], es[|es| - 1];
      RunKeepsDistinct(s, rest);
      StepKeepsInv(Run(s, rest), last);
      RepeatsExactlyWhen(Run(s, rest), last);
    }
  }

  /** Run by itself, in any batches, a synchronisation leaves the synchronised list. */
  lemma {:induction false} AloneIsSynced(s: State, id: nat, m: nat, n: nat)
    requires id < |s.syncs| && s.syncs[id].Idle?
    requires m >= |Filter(s.list, s.syncs[id].latest, false)| && n >= |Filter(s.syncs[id].latest, s.list, false)|
    ensures Step(Step(Step(s, Read(id)), Remove(id, m)), Append(id, n)).list == Synced(s.list, s.syncs[id].latest)
  {
    hide Filter;
    var latest := s.syncs[id].latest;
    RemovingTheRest(s.list, latest);
    var s1 := Step(s, Read(id));
    var s2 := Step(s1, Remove(id, m));
    var gone, more := Filter(s.list, latest, false), Filter(latest, s.list, false);
    assert gone[..|gone|] == gone && more[..|more|] == more;
    assert s2.syncs[id].toRemove == [] && s2.syncs[id].toAdd == more;
    assert Batch(s2, Append(id, n)) == more;
  }

  lemma {:induction false} RunSnoc(s: State, es: seq<Event>, e: Event)
    ensures Run(s, es + [e]) == Step(Run(s, es), e)
  {
    hide Step;
    assert (es + [e])[..|es|] == es;
  }

  /** The race, step by step. */
  lemma {:induction false} RaceSteps()
    ensures var s := State([], map[], [Idle(["user"]), Idle(["user"])]);
            var w := Working([], ["user"], map[]);
            && Step(s, Read(0)) == State([], map[], [w, Idle(["user"])])
            && Step(Step(s, Read(0)), Read(1)) == State([], map[], [w, w])
  {
    assert ["user"][..0] == [];
    assert Filter([], ["user"], false) == [] && Filter(["user"], [], false) == ["user"];
  }

  lemma {:induction false} RaceAppends(s: State)
    requires s == State([], map[], [Working([], ["user"], map[]), Working([], ["user"], map[])])
    ensures Step(Step(s, Append(0, 1)), Append(1, 1)).list == ["user", "user"]
  {
    hide Filter, Bumped;
    var t := Step(s, Append(0, 1));
    assert ["user"][..1] == ["user"];
    assert t.list == ["user"] && t.syncs[1] == s.syncs[1];
    assert Batch(t, Append(1, 1)) == ["user"];
  }

  /** Two synchronisations that both read before either appends put a new key on twice. */
  lemma {:induction false} RaceRepeats()
    ensures var s := State([], map[], [Idle(["user"]), Idle(["user"])]);
            && Inv(s) && Distinct(s.list)
            && Run(s, [Read(0), Read(1), Append(0, 1), Append(1, 1)]).list == ["user", "user"]
  {
    hide Step, Run;
    var s := State([], map[], [Idle(["user"]), Idle(["user"])]);
    RaceSteps();
    RaceAppends(Step(Step(s, Read(0)), Read(1)));
    RunNone(s);
    RunSnoc(s, [], Read(0));
    RunSnoc(s, [Read(0)], Read(1));
    RunSnoc(s, [Read(0), Read(1)], Append(0, 1));
    RunSnoc(s, [Read(0), Read(1), Append(0, 1)], Append(1, 1));
    assert [] + [Read(0)] == [Read(0)] && [Read(0)] + [Read(1)] == [Read(0), Read(1)];
    assert [Read(0), Read(1)] + [Append(0, 1)] == [Read(0), Read(1), Append(0, 1)];
    assert [Read(0), Read(1), Append(0, 1)] + [Append(1, 1)] == [Read(0), Read(1), Append(0, 1), Append(1, 1)];
  }

  lemma {:induction false} RunNone(s: State)
    ensures Run(s, []) == s
  {
  }

  /** And a repeat stays: a synchronisation with the keys the list holds changes nothing. */
  lemma {:induction false} RepeatsStay(current: seq<Key>, latest: seq<Key>)
    requires forall k :: k in current <==> k in latest
    ensures Synced(current, latest) == current
  {
    hide Filter;
    FilterAgrees(current, latest, true, [], false);
    FilterNone(current);
    FilterAgrees(latest, current, false, [], true);
    FilterNothing(latest);
  }
}
