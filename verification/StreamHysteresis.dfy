/** When the orderbook server changes feeds, over whole runs. */
module StreamHysteresis {
  import opened StreamSelector
  import opened Wrappers

  /** Leads are kept for standbys only. */
  ghost predicate Standbys(st: State)
  {
    forall x :: x in st.leadingSince ==> st.active.Some? && st.active.value != x
  }

  lemma {:induction false} RunStandbys(streams: seq<Stream>, es: seq<Event>)
    ensures Standbys(Run(streams, es))
  {
    if es == [] {
    } else {
      RunStandbys(streams, es[..|es| - 1]);
      StepStandbys(Run(streams, es[..|es| - 1]), streams, es[|es| - 1]);
    }
  }

  lemma {:induction false} StepStandbys(st: State, streams: seq<Stream>, e: Event)
    requires Standbys(st)
    ensures Standbys(Step(st, streams, e))
  {
    hide IsStale, SlotOf, FirstFresh, Note, RecordStandby;
    if e.Message? {
      var t := Note(st, e.stream, e.slot, e.now);
      NoteKeeps(st, e.stream, e.slot, e.now, e.stream);
      if t.active.Some? && e.stream != t.active.value {
        StandbyStandbys(t, e.stream, e.slot, e.now, IsStale(st, e.stream, e.now), t.active.value);
      }
    }
  }

  lemma {:induction false} StandbyStandbys(st: State, x: Stream, slot: nat, now: nat, wasStale: bool, a: Stream)
    requires Standbys(st) && st.active == Some(a) && x != a
    ensures Standbys(RecordStandby(st, x, slot, now, wasStale, a).0)
  {
    hide IsStale, SlotOf;
  }

  /** The event leaves `s` a leading standby: the active feed stays, a message of `s` is ahead of
  the active feed, and a message of the active feed is behind `s`. */
  predicate Sustains(st: State, streams: seq<Stream>, e: Event, s: Stream)
  {
    && st.active.Some? && st.active.value != s && Step(st, streams, e).active == st.active
    && (From(e, s) ==> e.slot > SlotOf(st, st.active.value))
    && (From(e, st.active.value) && s in streams ==> e.slot < SlotOf(st, s))
  }

  /** A lead is on record after an event exactly when the event sustains it, and it either
  starts now or was on record before. */
  lemma {:induction false} LeadAfterStep(st: State, streams: seq<Stream>, e: Event, s: Stream)
    requires Standbys(st)
    ensures var t := Step(st, streams, e);
            && (s in t.leadingSince <==> Sustains(st, streams, e, s) && (From(e, s) || s in st.leadingSince))
            && (s in t.leadingSince ==>
                  t.leadingSince[s] == if From(e, s) && (s !in st.leadingSince || IsStale(st, s, e.now))
                                       then e.now else st.leadingSince[s])
  {
    match e
    case Health(now) =>
      hide IsStale;
    case Message(x, slot, now) =>
      LeadAfterMessage(st, streams, x, slot, now, s);
  }

  lemma {:induction false} LeadAfterMessage(st: State, streams: seq<Stream>, x: Stream, slot: nat, now: nat, s: Stream)
    requires Standbys(st)
    ensures var t, e := Record(st, streams, x, slot, now).0, Message(x, slot, now);
            && (s in t.leadingSince <==> Sustains(st, streams, e, s) && (x == s || s in st.leadingSince))
            && (s in t.leadingSince ==>
                  t.leadingSince[s] == if x == s && (s !in st.leadingSince || IsStale(st, s, now))
                                       then now else st.leadingSince[s])
  {
    hide IsStale, Note, RecordStandby, DropOvertaken;
    NoteKeeps(st, x, slot, now, s);
    var t := Note(st, x, slot, now);
    if st.active.Some? {
      var a := st.active.value;
      NoteKeeps(st, x, slot, now, a);
      if x == a {
        LeadAfterOwn(t, streams, a, slot, s);
      } else {
        LeadAfterStandby(t, x, slot, now, IsStale(st, x, now), a, s);
      }
    }
  }

  /** Noting a message touches neither the choice nor the leads, and only its own feed's slot. */
  lemma {:induction false} NoteKeeps(st: State, x: Stream, slot: nat, now: nat, s: Stream)
    ensures var t := Note(st, x, slot, now);
            && t.active == st.active && t.leadingSince == st.leadingSince
            && (x != s ==> SlotOf(t, s) == SlotOf(st, s))
  {
  }

  lemma {:induction false} LeadAfterOwn(st: State, streams: seq<Stream>, a: Stream, slot: nat, s: Stream)
    ensures var t := DropOvertaken(st, streams, a, slot);
            && t.active == st.active
            && (s in t.leadingSince <==> s in st.leadingSince && (s != a && s in streams ==> slot < SlotOf(st, s)))
            && (s in t.leadingSince ==> t.leadingSince[s] == st.leadingSince[s])
  {
    hide SlotOf;
  }

  lemma {:induction false} LeadAfterStandby(st: State, x: Stream, slot: nat, now: nat, wasStale: bool, a: Stream,
                                            s: Stream)
    requires st.active == Some(a) && x != a
    ensures var t := RecordStandby(st, x, slot, now, wasStale, a).0;
            && (s in t.leadingSince <==>
                  t.active == st.active && (if x == s then slot > SlotOf(st, a) else s in st.leadingSince))
            && (s in t.leadingSince ==>
                  t.leadingSince[s] == if x == s && (s !in st.leadingSince || wasStale)
                                       then now else st.leadingSince[s])
  {
    hide SlotOf, IsStale;
  }

  /** Since message `i`, one of its own, `s` has been a leading standby without a break: every
  event since has left it so, and it was fresh whenever it sent again. */
  ghost predicate Leading(streams: seq<Stream>, es: seq<Event>, s: Stream, i: nat)
  {
    && i < |es| && From(es[i], s)
    && forall k :: i <= k < |es| ==> Holds(streams, es, s, i, k)
  }

  ghost predicate Holds(streams: seq<Stream>, es: seq<Event>, s: Stream, i: nat, k: nat)
    requires k < |es|
  {
    && Sustains(Run(streams, es[..k]), streams, es[k], s)
    && (i < k && From(es[k], s) ==> !IsStale(Run(streams, es[..k]), s, es[k].now))
  }

  lemma {:induction false} LeadingPrefix(streams: seq<Stream>, es: seq<Event>, s: Stream, i: nat)
    requires es != [] && i < |es| - 1
    ensures Leading(streams, es, s, i) <==>
              Leading(streams, es[..|es| - 1], s, i) && Holds(streams, es, s, i, |es| - 1)
  {
    hide Run, Sustains, IsStale;
    var rest := es[..|es| - 1];
    forall k | 0 <= k < |rest| ensures Holds(streams, es, s, i, k) <==> Holds(streams, rest, s, i, k) {
      assert rest[..k] == es[..k] && rest[k] == es[k];
    }
  }

  /** Every lead on record was earned: `s` has led since the message that set it. */
  lemma {:induction false} LeadIsSustained(streams: seq<Stream>, es: seq<Event>, s: Stream) returns (i: nat)
    requires s in Run(streams, es).leadingSince
    ensures Leading(streams, es, s, i) && es[i].now == Run(streams, es).leadingSince[s]
  {
    hide Step, IsStale, Sustains, Leading;
    var rest, n := es[..|es| - 1], |es| - 1;
    var st := Run(streams, rest);
    RunStandbys(streams, rest);
    LeadAfterStep(st, streams, es[n], s);
    if From(es[n], s) && (s !in st.leadingSince || IsStale(st, s, es[n].now)) {
      i := n;
      LeadingNow(streams, es, s);
    } else {
      i := LeadIsSustained(streams, rest, s);
      LeadingBound(streams, rest, s, i);
      LeadingPrefix(streams, es, s, i);
    }
  }

  lemma {:induction false} LeadingBound(streams: seq<Stream>, es: seq<Event>, s: Stream, i: nat)
    requires Leading(streams, es, s, i)
    ensures i < |es|
  {}

  lemma {:induction false} LeadingNow(streams: seq<Stream>, es: seq<Event>, s: Stream)
    requires es != []
    ensures Leading(streams, es, s, |es| - 1)
       <==> From(es[|es| - 1], s) && Sustains(Run(streams, es[..|es| - 1]), streams, es[|es| - 1], s)
  {
    hide Run, Sustains;
    if From(es[|es| - 1], s) && Sustains(Run(streams, es[..|es| - 1]), streams, es[|es| - 1], s) {
      assert Holds(streams, es, s, |es| - 1, |es| - 1);
    }
    if Leading(streams, es, s, |es| - 1) {
      assert Holds(streams, es, s, |es| - 1, |es| - 1);
    }
  }

  /** And every lead earned is on record, from its earliest such message. */
  lemma {:induction false} SustainedIsLead(streams: seq<Stream>, es: seq<Event>, s: Stream, i: nat)
    requires Timed(es) && Leading(streams, es, s, i)
    ensures s in Run(streams, es).leadingSince && Run(streams, es).leadingSince[s] <= es[i].now
  {
    hide Step, IsStale, Sustains, Leading, Timed;
    LeadingBound(streams, es, s, i);
    var rest, n := es[..|es| - 1], |es| - 1;
    var st := Run(streams, rest);
    RunStandbys(streams, rest);
    LeadAfterStep(st, streams, es[n], s);
    TimedPrefix(es);
    if i == n {
      LeadingNow(streams, es, s);
      if s in st.leadingSince {
        var j := LeadIsSustained(streams, rest, s);
        LeadingBound(streams, rest, s, j);
      }
    } else {
      LeadingPrefix(streams, es, s, i);
      SustainedIsLead(streams, rest, s, i);
    }
  }

  /** After any run, a message of a standby makes its feed active exactly when it leaves the feed
  fresh and either the active feed is stale, or the message is ahead, the feed was already fresh,
  and it has led without a break for the switch threshold. */
  lemma {:induction false} SwitchExactlyWhen(streams: seq<Stream>, es: seq<Event>, s: Stream, slot: nat, now: nat)
    requires Timed(es)
    requires var st := Run(streams, es); st.active.Some? && st.active.value != s
    ensures var st := Run(streams, es);
            Record(st, streams, s, slot, now).1 <==>
              && !IsStale(Note(st, s, slot, now), s, now)
              && (|| IsStale(st, st.active.value, now)
                  || (&& slot > SlotOf(st, st.active.value) && !IsStale(st, s, now)
                      && exists i :: 0 <= i < |es| && Leading(streams, es, s, i)
                                     && now - es[i].now >= SWITCH_THRESHOLD))
  {
    hide Run, Leading;
    var st := Run(streams, es);
    SwitchOnRecord(st, streams, s, slot, now);
    if s in st.leadingSince {
      var i := LeadIsSustained(streams, es, s);
      LeadingBound(streams, es, s, i);
    }
    if i :| 0 <= i < |es| && Leading(streams, es, s, i) && now - es[i].now >= SWITCH_THRESHOLD {
      SustainedIsLead(streams, es, s, i);
    }
  }

  lemma {:induction false} SwitchOnRecord(st: State, streams: seq<Stream>, s: Stream, slot: nat, now: nat)
    requires st.active.Some? && st.active.value != s
    ensures Record(st, streams, s, slot, now).1 <==>
              && !IsStale(Note(st, s, slot, now), s, now)
              && (|| IsStale(st, st.active.value, now)
                  || (&& slot > SlotOf(st, st.active.value) && !IsStale(st, s, now)
                      && s in st.leadingSince && now - st.leadingSince[s] >= SWITCH_THRESHOLD))
  {
    var a, t := st.active.value, Note(st, s, slot, now);
    assert IsStale(t, a, now) == IsStale(st, a, now) && SlotOf(t, a) == SlotOf(st, a);
    var since := LeadStart(t, s, now, IsStale(st, s, now));
    assert IsStale(t.(leadingSince := t.leadingSince[s := since]), s, now) == IsStale(t, s, now);
    hide IsStale, Note;
  }

  lemma {:induction false} ActiveSince(streams: seq<Stream>, es: seq<Event>, s: Stream, i: nat, k: nat)
    requires Leading(streams, es, s, i) && i <= k <= |es|
    ensures Run(streams, es[..k]).active == Run(streams, es).active
    decreases |es| - k
  {
    hide Step;
    if k == |es| {
      assert es[..k] == es;
    } else {
      ActiveSince(streams, es, s, i, k + 1);
      assert Holds(streams, es, s, i, k);
      assert es[..k + 1][..k] == es[..k];
    }
  }

  /** No flip-flopping: a healthy active feed is only ever left at least the switch threshold
  after the last time the active feed changed, whatever the run. */
  lemma {:induction false} SwitchesAreSpaced(streams: seq<Stream>, es: seq<Event>, s: Stream, slot: nat, now: nat,
                                             k: nat)
    requires Timed(es) && k < |es|
    requires var st := Run(streams, es); st.active.Some? && st.active.value != s && !IsStale(st, st.active.value, now)
    requires Record(Run(streams, es), streams, s, slot, now).1
    requires Run(streams, es[..k]).active != Run(streams, es[..k + 1]).active
    ensures now - es[k].now >= SWITCH_THRESHOLD
  {
    hide Run, Leading, IsStale, Record;
    SwitchExactlyWhen(streams, es, s, slot, now);
    var i :| 0 <= i < |es| && Leading(streams, es, s, i) && now - es[i].now >= SWITCH_THRESHOLD;
    if i <= k {
      ActiveSince(streams, es, s, i, k);
      ActiveSince(streams, es, s, i, k + 1);
      assert false;
    }
  }
}
