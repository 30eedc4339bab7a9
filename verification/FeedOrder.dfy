/** The slots the orderbook server passes on when it has several feeds to choose from. */
module FeedOrder {
  import opened Wrappers
  import opened StreamSelector
  import opened StreamHysteresis

  /** Event `k` of a run is a message that was passed on. */
  predicate Forwarded(streams: seq<Stream>, es: seq<Event>, k: nat)
    requires k < |es|
  {
    es[k].Message? && Record(Run(streams, es[..k]), streams, es[k].stream, es[k].slot, es[k].now).1
  }

  /** No feed goes back on its own slots. */
  ghost predicate FeedsAscend(es: seq<Event>)
  {
    forall i, j :: 0 <= i < j < |es| && es[i].Message? && From(es[j], es[i].stream) ==> es[i].slot <= es[j].slot
  }

  lemma {:induction false} ActiveStays(streams: seq<Stream>, es: seq<Event>, k: nat)
    requires k <= |es| && Run(streams, es[..k]).active.Some?
    ensures Run(streams, es).active.Some?
  {
    hide Step;
    if k == |es| {
      assert es[..k] == es;
    } else {
      var rest, n := es[..|es| - 1], |es| - 1;
      assert rest[..k] == es[..k];
      ActiveStays(streams, rest, k);
      StepStaysActive(Run(streams, rest), streams, es[n]);
    }
  }

  lemma {:induction false} StepStaysActive(st: State, streams: seq<Stream>, e: Event)
    requires st.active.Some?
    ensures Step(st, streams, e).active.Some?
  {
    hide IsStale, SlotOf, FirstFresh, Note, RecordStandby;
    if e.Message? {
      NoteKeeps(st, e.stream, e.slot, e.now, e.stream);
      if e.stream != st.active.value {
        var t := Note(st, e.stream, e.slot, e.now);
        StandbyStaysActive(t, e.stream, e.slot, e.now, IsStale(st, e.stream, e.now), st.active.value);
      }
    }
  }

  lemma {:induction false} StandbyStaysActive(st: State, s: Stream, slot: nat, now: nat, wasStale: bool, a: Stream)
    requires st.active.Some?
    ensures RecordStandby(st, s, slot, now, wasStale, a).0.active.Some?
  {
    hide IsStale, SlotOf;
  }

  lemma {:induction false} ForwardedSetsActive(streams: seq<Stream>, es: seq<Event>, i: nat)
    requires i < |es| && Forwarded(streams, es, i)
    ensures Run(streams, es).active.Some?
  {
    hide Record;
    var st := Run(streams, es[..i]);
    ForwardedIsActive(st, streams, es[i].stream, es[i].slot, es[i].now);
    assert es[..i + 1][..i] == es[..i];
    ActiveStays(streams, es, i + 1);
  }

  /** After any run, a message of a feed that keeps its own order is passed on behind a slot passed
  on earlier exactly when it is of another feed than that slot, is behind it, and its feed either
  was made active by a health check, or takes over now from a stale feed, or by a lead over a third
  one. A healthy feed is never left for one behind it. */
  lemma {:induction false} FallsExactlyWhen(streams: seq<Stream>, es: seq<Event>, i: nat, s: Stream, slot: nat,
                                            now: nat)
    requires i < |es| && Forwarded(streams, es, i)
    requires forall k :: 0 <= k < |es| && From(es[k], s) ==> es[k].slot <= slot
    ensures Run(streams, es).active.Some?
    ensures var st := Run(streams, es); var a := st.active.value;
            (Record(st, streams, s, slot, now).1 && slot < es[i].slot) <==>
              && slot < es[i].slot && s != es[i].stream
              && (|| a == s
                  || (&& !IsStale(Note(st, s, slot, now), s, now)
                      && (|| IsStale(st, a, now)
                          || (&& a != es[i].stream && slot > SlotOf(st, a) && !IsStale(st, s, now)
                              && s in st.leadingSince && now - st.leadingSince[s] >= SWITCH_THRESHOLD))))
  {
    hide Run, IsStale, Note, Record;
    ForwardedSetsActive(streams, es, i);
    var st, first := Run(streams, es), es[i];
    var a := st.active.value;
    assert From(first, first.stream);
    var m := LastSlotIsGreatest(streams, es, first.stream);
    if a == s {
      ActiveForwards(st, streams, s, slot, now);
    } else {
      SwitchOnRecord(st, streams, s, slot, now);
    }
  }

  lemma {:induction false} ActiveForwards(st: State, streams: seq<Stream>, s: Stream, slot: nat, now: nat)
    requires st.active == Some(s)
    ensures Record(st, streams, s, slot, now).1
  {
    hide IsStale;
  }

  /** The active feed is never stale when something happens. */
  ghost predicate Healthy(streams: seq<Stream>, es: seq<Event>)
  {
    forall k :: 0 <= k < |es| ==> HealthyAt(streams, es, k)
  }

  predicate HealthyAt(streams: seq<Stream>, es: seq<Event>, k: nat)
    requires k < |es|
  {
    var st := Run(streams, es[..k]);
    st.active.Some? ==> !IsStale(st, st.active.value, es[k].now)
  }

  /** The active feed's greatest slot. */
  function Top(st: State): (r: int)
  {
    if st.active.Some? then SlotOf(st, st.active.value) else -1
  }

  /** Everything passed on so far is at most the active feed's greatest slot. */
  ghost predicate Topped(streams: seq<Stream>, es: seq<Event>)
  {
    forall i :: 0 <= i < |es| && Forwarded(streams, es, i) ==> es[i].slot <= Top(Run(streams, es))
  }

  lemma {:induction false} ForwardedOfPrefix(streams: seq<Stream>, es: seq<Event>, k: nat)
    requires k < |es| - 1
    ensures Forwarded(streams, es, k) <==> Forwarded(streams, es[..|es| - 1], k)
  {
    hide Run, Record, IsStale;
    assert es[..|es| - 1][..k] == es[..k];
  }

  lemma {:induction false} HealthyKeepsTopped(streams: seq<Stream>, es: seq<Event>)
    requires Healthy(streams, es)
    ensures Topped(streams, es)
  {
    if es == [] {
    } else {
      hide Run, Forwarded, HealthyAt, Top, Healthy;
      var rest, n := es[..|es| - 1], |es| - 1;
      PrefixHealthy(streams, es, n);
      HealthyKeepsTopped(streams, rest);
      ToppedStep(streams, es);
      forall i | 0 <= i < |es| && Forwarded(streams, es, i) ensures es[i].slot <= Top(Run(streams, es)) {
        if i < n {
          ForwardedOfPrefix(streams, es, i);
        }
      }
    }
  }

  /** One more event at a healthy active feed: the active feed's greatest slot does not fall, and
  what is passed on is within it. */
  lemma {:induction false} ToppedStep(streams: seq<Stream>, es: seq<Event>)
    requires es != [] && HealthyAt(streams, es, |es| - 1)
    ensures Top(Run(streams, es[..|es| - 1])) <= Top(Run(streams, es))
    ensures Forwarded(streams, es, |es| - 1) ==> es[|es| - 1].slot <= Top(Run(streams, es))
  {
    hide IsStale;
    var st, e := Run(streams, es[..|es| - 1]), es[|es| - 1];
    match e
    case Health(_) =>
    case Message(s, slot, now) =>
      hide Note, Record, SlotOf;
      NoteRaises(st, s, slot, now);
      MessageTops(st, streams, s, slot, now);
  }

  lemma {:induction false} NoteRaises(st: State, s: Stream, slot: nat, now: nat)
    ensures var t := Note(st, s, slot, now);
            slot <= SlotOf(t, s) && SlotOf(st, s) <= SlotOf(t, s)
  {
  }

  lemma {:induction false} MessageTops(st: State, streams: seq<Stream>, s: Stream, slot: nat, now: nat)
    requires st.active.Some? ==> !IsStale(st, st.active.value, now)
    ensures var (t, forward) := Record(st, streams, s, slot, now);
            Top(st) <= Top(t) && (forward ==> slot <= Top(t))
  {
    hide IsStale, Note, RecordStandby, DropOvertaken;
    var t := Note(st, s, slot, now);
    NoteRaises(st, s, slot, now);
    NoteKeeps(st, s, slot, now, s);
    if st.active.Some? {
      var a := st.active.value;
      NoteKeeps(st, s, slot, now, a);
      if a == s {
        OwnKeepsSlots(t, streams, s, slot);
      } else {
        NoteKeepsFresh(st, s, slot, now, a);
        StandbyTops(t, s, slot, now, IsStale(st, s, now), a);
      }
    }
  }

  lemma {:induction false} OwnKeepsSlots(st: State, streams: seq<Stream>, s: Stream, slot: nat)
    ensures var t := DropOvertaken(st, streams, s, slot); t.active == st.active && t.lastSlot == st.lastSlot
  {
  }

  lemma {:induction false} NoteKeepsFresh(st: State, x: Stream, slot: nat, now: nat, s: Stream)
    requires x != s
    ensures IsStale(Note(st, x, slot, now), s, now) == IsStale(st, s, now)
  {
  }

  lemma {:induction false} StandbyTops(st: State, s: Stream, slot: nat, now: nat, wasStale: bool, a: Stream)
    requires st.active == Some(a) && !IsStale(st, a, now) && slot <= SlotOf(st, s)
    ensures var (t, forward) := RecordStandby(st, s, slot, now, wasStale, a);
            && t.active.Some? && t.lastSlot == st.lastSlot
            && (if forward then t.active == Some(s) && slot > SlotOf(st, a) else t.active == Some(a))
  {
    hide IsStale;
  }

  /** As long as the active feed is never stale, leads may change it as they will: the slots passed
  on never decrease. */
  lemma {:induction false} HealthyNeverFalls(streams: seq<Stream>, es: seq<Event>, i: nat, j: nat)
    requires FeedsAscend(es) && Healthy(streams, es)
    requires i < j < |es| && Forwarded(streams, es, i) && Forwarded(streams, es, j)
    ensures es[i].slot <= es[j].slot
  {
    hide Run, Record, HealthyAt, IsStale;
    var before := es[..j];
    PrefixHealthy(streams, es, j);
    HealthyKeepsTopped(streams, before);
    assert Forwarded(streams, before, i) by { assert before[..i] == es[..i]; }
    assert before[i] == es[i];
    var st, s := Run(streams, before), es[j].stream;
    assert forall k :: 0 <= k < |before| && From(before[k], s) ==> before[k].slot <= es[j].slot;
    var m := LastSlotIsGreatest(streams, before, s);
    HealthyNow(streams, es, j);
    ForwardedReachesTop(st, streams, s, es[j].slot, es[j].now);
  }

  /** At a healthy active feed, what is passed on reaches everything passed on before. */
  lemma {:induction false} ForwardedReachesTop(st: State, streams: seq<Stream>, s: Stream, slot: nat, now: nat)
    requires st.active.Some? ==> !IsStale(st, st.active.value, now)
    requires Record(st, streams, s, slot, now).1 && SlotOf(st, s) <= slot
    ensures slot >= Top(st)
  {
    hide IsStale, Record;
    if st.active.Some? && st.active.value != s {
      SwitchOnRecord(st, streams, s, slot, now);
    }
  }

  lemma {:induction false} PrefixHealthy(streams: seq<Stream>, es: seq<Event>, j: nat)
    requires Healthy(streams, es) && j <= |es|
    ensures Healthy(streams, es[..j])
    ensures j < |es| ==> HealthyAt(streams, es, j)
  {
    hide Run, IsStale;
    forall k | 0 <= k < j ensures HealthyAt(streams, es[..j], k) {
      assert es[..j][..k] == es[..k];
      assert HealthyAt(streams, es, k);
    }
  }

  lemma {:induction false} HealthyNow(streams: seq<Stream>, es: seq<Event>, j: nat)
    requires Healthy(streams, es) && j < |es|
    ensures var st := Run(streams, es[..j]); st.active.Some? ==> !IsStale(st, st.active.value, es[j].now)
  {
    assert HealthyAt(streams, es, j);
  }

  /** A silent feed at slot 100 is left for one at slot 50. */
  lemma {:induction false} FailoverFalls()
    ensures var es := [Message("a", 100, 1), Message("b", 50, 5000)];
            Forwarded(["a", "b"], es, 0) && Forwarded(["a", "b"], es, 1)
  {
    var es := [Message("a", 100, 1), Message("b", 50, 5000)];
    RunNone(["a", "b"]);
    assert es[..0] == [] && es[..1] == [es[0]] && [es[0]][..0] == [];
    var st := Run(["a", "b"], es[..1]);
    assert st == Step(Run(["a", "b"], []), ["a", "b"], es[0]);
    assert st.active == Some("a") && st.messageTime == map["a" := 1];
    assert IsStale(st, "a", 5000) && !IsStale(Note(st, "b", 50, 5000), "b", 5000);
    SwitchOnRecord(st, ["a", "b"], "b", 50, 5000);
  }
}
