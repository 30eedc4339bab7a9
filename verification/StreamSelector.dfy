/** The orderbook server's choice between redundant feeds, with hysteresis. */
module StreamSelector {
  import opened Wrappers

  const SWITCH_THRESHOLD := 10_000
  const STALE_THRESHOLD := 3_000
  const FROZEN_THRESHOLD := 10_000

  /** A feed, by its (non-empty) prefix. */
  type Stream = string

  datatype State = State(
    active: Option<Stream>,
    messageTime: map<Stream, nat>,
    progressTime: map<Stream, nat>,
    lastSlot: map<Stream, nat>,
    leadingSince: map<Stream, nat>)

  /** A time recorded for `s`, less than `window` ago. */
  predicate Within(times: map<Stream, nat>, s: Stream, now: nat, window: nat)
  {
    s in times && times[s] != 0 && now - times[s] < window
  }

  predicate IsStale(st: State, s: Stream, now: nat)
  {
    !Within(st.messageTime, s, now, STALE_THRESHOLD) || !Within(st.progressTime, s, now, FROZEN_THRESHOLD)
  }

  /** Does the slot move the feed forward? */
  predicate Advances(st: State, s: Stream, slot: nat)
  {
    s !in st.lastSlot || slot > st.lastSlot[s]
  }

  function Note(st: State, s: Stream, slot: nat, now: nat): (r: State)
  {
    var t := st.(messageTime := st.messageTime[s := now]);
    if Advances(st, s, slot)
    then t.(lastSlot := t.lastSlot[s := slot], progressTime := t.progressTime[s := now])
    else t
  }

  function Activate(st: State, s: Stream): (r: State)
  {
    st.(active := Some(s), leadingSince := map[])
  }

  function SlotOf(st: State, s: Stream): (r: nat)
  {
    if s in st.lastSlot then st.lastSlot[s] else 0
  }

  /** A message of the active feed ends the lead of every listed standby it has caught up with. */
  function DropOvertaken(st: State, streams: seq<Stream>, s: Stream, slot: nat): (r: State)
  {
    st.(leadingSince := map x | x in st.leadingSince && !(x in streams && x != s && slot >= SlotOf(st, x))
                          :: st.leadingSince[x])
  }

  /** When the lead `s` now has began. */
  function LeadStart(st: State, s: Stream, now: nat, wasStale: bool): (r: nat)
  {
    if s !in st.leadingSince || wasStale then now else st.leadingSince[s]
  }

  /** A message of a standby while feed `a` is active. */
  function RecordStandby(st: State, s: Stream, slot: nat, now: nat, wasStale: bool, a: Stream): (r: (State, bool))
  {
    if IsStale(st, a, now) && !IsStale(st, s, now) then (Activate(st, s), true)
    else if slot > SlotOf(st, a) then
      var since := LeadStart(st, s, now, wasStale);
      var t := st.(leadingSince := st.leadingSince[s := since]);
      if now - since >= SWITCH_THRESHOLD && !IsStale(t, s, now) then (Activate(t, s), true) else (t, false)
    else (st.(leadingSince := st.leadingSince - {s}), false)
  }

  /** `recordMessage`: the new state, and whether the message is forwarded. */
  function Record(st: State, streams: seq<Stream>, s: Stream, slot: nat, now: nat): (r: (State, bool))
  {
    var wasStale := IsStale(st, s, now);
    var t := Note(st, s, slot, now);
    if t.active.None? then (Activate(t, s), true)
    else if s == t.active.value then (DropOvertaken(t, streams, s, slot), true)
    else RecordStandby(t, s, slot, now, wasStale, t.active.value)
  }

  function FirstFresh(st: State, streams: seq<Stream>, now: nat): (r: Option<Stream>)
    ensures r.Some? ==> r.value in streams && !IsStale(st, r.value, now)
    ensures r.None? <==> forall s :: s in streams ==> IsStale(st, s, now)
  {
    if streams == [] then None
    else if !IsStale(st, streams[0], now) then Some(streams[0])
    else FirstFresh(st, streams[1..], now)
  }

  /** `checkHealth`: the new state, and whether any listed feed is healthy. */
  function Check(st: State, streams: seq<Stream>, now: nat): (r: (State, bool))
  {
    var best := FirstFresh(st, streams, now);
    (if st.active.Some? && IsStale(st, st.active.value, now) && best.Some? then Activate(st, best.value) else st,
     best.Some?)
  }

  datatype Event = Message(stream: Stream, slot: nat, now: nat) | Health(now: nat)

  function Step(st: State, streams: seq<Stream>, e: Event): (r: State)
  {
    match e
    case Message(s, slot, now) => Record(st, streams, s, slot, now).0
    case Health(now) => Check(st, streams, now).0
  }

  function Run(streams: seq<Stream>, es: seq<Event>): (r: State)
  {
    if es == [] then State(None, map[], map[], map[], map[])
    else Step(Run(streams, es[..|es| - 1]), streams, es[|es| - 1])
  }

  // ------------------------------------------------------------------------ the class

  class Selector {
    const streams: seq<Stream>
    var activeStream: Option<Stream>
    var lastMessageTime: map<Stream, nat>
    var lastProgressTime: map<Stream, nat>
    var lastSlot: map<Stream, nat>
    var leadingSince: map<Stream, nat>

    function View(): (r: State)
      reads this
    {
      State(activeStream, lastMessageTime, lastProgressTime, lastSlot, leadingSince)
    }

    constructor (streams: seq<Stream>)
      ensures this.streams == streams && View() == Run(streams, [])
    {
      this.streams := streams;
      activeStream := None;
      lastMessageTime, lastProgressTime, lastSlot, leadingSince := map[], map[], map[], map[];
    }

    method SetActive(s: Stream)
      modifies this
      ensures View() == Activate(old(View()), s)
    {
      activeStream := Some(s);
      leadingSince := map[];
    }

    method DropLeads(s: Stream, slot: nat)
      modifies this`leadingSince
      ensures View() == DropOvertaken(old(View()), streams, s, slot)
    {
      var i := 0;
      while i < |streams|
        invariant 0 <= i <= |streams|
        invariant leadingSince == DropOvertaken(old(View()), streams[..i], s, slot).leadingSince
      {
        var x := streams[i];
        assert streams[..i + 1] == streams[..i] + [x];
        if x != s && slot >= (if x in lastSlot then lastSlot[x] else 0) {
          leadingSince := leadingSince - {x};
        }
        i := i + 1;
      }
      assert streams[..i] == streams;
    }

    method RecordMessage(s: Stream, slot: nat, now: nat) returns (forward: bool)
      modifies this
      ensures (View(), forward) == Record(old(View()), streams, s, slot, now)
    {
      var wasStale := IsStale(View(), s, now);
      lastMessageTime := lastMessageTime[s := now];
      if s !in lastSlot || slot > lastSlot[s] {
        lastSlot := lastSlot[s := slot];
        lastProgressTime := lastProgressTime[s := now];
      }
      assert View() == Note(old(View()), s, slot, now);
      if activeStream.None? {
        SetActive(s);
        return true;
      }
      if s == activeStream.value {
        DropLeads(s, slot);
        return true;
      }
      forward := FromStandby(s, slot, now, wasStale);
    }

    method FromStandby(s: Stream, slot: nat, now: nat, wasStale: bool) returns (forward: bool)
      requires activeStream.Some?
      modifies this
      ensures (View(), forward) == RecordStandby(old(View()), s, slot, now, wasStale, old(activeStream).value)
    {
      if IsStale(View(), activeStream.value, now) && !IsStale(View(), s, now) {
        SetActive(s);
        return true;
      }
      var activeSlot := SlotOf(View(), activeStream.value);
      if slot > activeSlot {
        if s !in leadingSince || wasStale {
          leadingSince := leadingSince[s := now];
        }
        assert leadingSince == old(leadingSince)[s := leadingSince[s]];
        if now - leadingSince[s] >= SWITCH_THRESHOLD && !IsStale(View(), s, now) {
          SetActive(s);
          return true;
        }
      } else {
        leadingSince := leadingSince - {s};
      }
      return false;
    }

    method CheckHealth(now: nat) returns (anyHealthy: bool)
      modifies this
      ensures (View(), anyHealthy) == Check(old(View()), streams, now)
    {
      anyHealthy := false;
      for i := 0 to |streams|
        invariant View() == old(View())
        invariant anyHealthy <==> exists k :: 0 <= k < i && !IsStale(View(), streams[k], now)
      {
        if !IsStale(View(), streams[i], now) {
          anyHealthy := true;
        }
      }
      if activeStream.Some? && IsStale(View(), activeStream.value, now) {
        var i := 0;
        while i < |streams|
          invariant 0 <= i <= |streams| && View() == old(View())
          invariant FirstFresh(View(), streams, now) == FirstFresh(View(), streams[i..], now)
        {
          assert streams[i..][1..] == streams[i + 1..];
          if !IsStale(View(), streams[i], now) {
            SetActive(streams[i]);
            return;
          }
          i := i + 1;
        }
      }
    }
  }

  // ------------------------------------------------------------- what each event does

  /** A message is forwarded exactly when its feed is the active one afterwards, and the feed
  changes only to one that is fresh. */
  lemma {:induction false} ForwardedIsActive(st: State, streams: seq<Stream>, s: Stream, slot: nat, now: nat)
    ensures var (t, forward) := Record(st, streams, s, slot, now);
            && (forward <==> t.active == Some(s))
            && (st.active.Some? && t.active != st.active ==> t.active == Some(s) && !IsStale(t, s, now))
  {
    hide Within, Advances, SlotOf;
  }

  /** The health check reports whether any listed feed is fresh; if one is, a feed that is active
  afterwards is fresh too; if none is, nothing changes. */
  lemma {:induction false} CheckRestoresHealth(st: State, streams: seq<Stream>, now: nat)
    ensures var (t, healthy) := Check(st, streams, now);
            && (healthy <==> exists s :: s in streams && !IsStale(st, s, now))
            && (healthy && st.active.Some? ==> !IsStale(t, t.active.value, now))
            && (!healthy ==> t == st)
  {
  }

  // --------------------------------------------------------------- what the state means

  predicate From(e: Event, s: Stream)
  {
    e.Message? && e.stream == s
  }

  /** Clock readings are positive and never go back. */
  ghost predicate Timed(es: seq<Event>)
  {
    && (forall i :: 0 <= i < |es| ==> es[i].now > 0)
    && (forall i, j :: 0 <= i < j < |es| ==> es[i].now <= es[j].now)
  }

  /** Message `i` has a higher slot than every earlier message of its feed. */
  ghost predicate IsProgress(es: seq<Event>, s: Stream, i: nat)
    requires i < |es|
  {
    From(es[i], s) && forall k :: 0 <= k < i && From(es[k], s) ==> es[k].slot < es[i].slot
  }

  /** After any run the slot kept for a feed is the greatest it has sent, first sent by `i`. */
  lemma {:induction false} LastSlotIsGreatest(streams: seq<Stream>, es: seq<Event>, s: Stream) returns (i: nat)
    ensures s in Run(streams, es).lastSlot ==>
              i < |es| && From(es[i], s) && es[i].slot == Run(streams, es).lastSlot[s]
    ensures forall k :: 0 <= k < |es| && From(es[k], s) ==>
              s in Run(streams, es).lastSlot && es[k].slot <= Run(streams, es).lastSlot[s]
  {
    hide Run;
    if es == [] {
      RunNone(streams);
      i := 0;
    } else {
      var rest, n := es[..|es| - 1], |es| - 1;
      i := LastSlotIsGreatest(streams, rest, s);
      assert forall k :: 0 <= k < n ==> rest[k] == es[k];
      RunTimes(streams, es);
      if From(es[n], s) && Advances(Run(streams, rest), s, es[n].slot) {
        i := n;
      }
    }
  }

  function Noted(st: State, e: Event): (r: State)
  {
    if e.Message? then Note(st, e.stream, e.slot, e.now) else st
  }

  /** What one event does to the records of the feeds. */
  lemma {:induction false} StepTimes(st: State, streams: seq<Stream>, e: Event)
    ensures var t, noted := Step(st, streams, e), Noted(st, e);
            t.messageTime == noted.messageTime && t.progressTime == noted.progressTime && t.lastSlot == noted.lastSlot
  {
    hide IsStale, Note, FirstFresh, SlotOf;
  }

  lemma {:induction false} RunTimes(streams: seq<Stream>, es: seq<Event>)
    requires es != []
    ensures var t, noted := Run(streams, es), Noted(Run(streams, es[..|es| - 1]), es[|es| - 1]);
            t.messageTime == noted.messageTime && t.progressTime == noted.progressTime && t.lastSlot == noted.lastSlot
  {
    hide Step, Noted;
    StepTimes(Run(streams, es[..|es| - 1]), streams, es[|es| - 1]);
  }

  lemma {:induction false} RunNone(streams: seq<Stream>)
    ensures Run(streams, []) == State(None, map[], map[], map[], map[])
  {
  }

  lemma {:induction false} TimedPrefix(es: seq<Event>)
    requires Timed(es) && es != []
    ensures Timed(es[..|es| - 1]) && es[|es| - 1].now > 0
    ensures forall k :: 0 <= k < |es| - 1 ==> es[k].now <= es[|es| - 1].now
  {
  }

  /** Whether a feed counts as fresh is decided by its messages alone: one in the last three
  seconds, and one with a new highest slot in the last ten. */
  lemma {:induction false} FreshExactlyWhen(streams: seq<Stream>, es: seq<Event>, s: Stream, now: nat)
    requires Timed(es)
    ensures !IsStale(Run(streams, es), s, now) <==>
              && (exists i :: 0 <= i < |es| && From(es[i], s) && now - es[i].now < STALE_THRESHOLD)
              && (exists i :: 0 <= i < |es| && IsProgress(es, s, i) && now - es[i].now < FROZEN_THRESHOLD)
  {
    hide Run, IsProgress;
    var i := MessageTimes(streams, es, s);
    var j := ProgressTimes(streams, es, s);
  }

  /** The message time kept is that of the feed's latest message. */
  lemma {:induction false} MessageTimes(streams: seq<Stream>, es: seq<Event>, s: Stream) returns (i: nat)
    requires Timed(es)
    ensures var times := Run(streams, es).messageTime;
            && (s in times ==> times[s] > 0 && i < |es| && From(es[i], s) && es[i].now == times[s])
            && (forall k :: 0 <= k < |es| && From(es[k], s) ==> s in times && es[k].now <= times[s])
  {
    hide Run;
    if es == [] {
      RunNone(streams);
      i := 0;
    } else {
      hide Advances, Timed;
      var rest, n := es[..|es| - 1], |es| - 1;
      TimedPrefix(es);
      i := MessageTimes(streams, rest, s);
      assert forall k :: 0 <= k < n ==> rest[k] == es[k];
      RunTimes(streams, es);
      if From(es[n], s) {
        i := n;
      }
    }
  }

  /** The progress time kept is that of the feed's latest new highest slot. */
  lemma {:induction false} ProgressTimes(streams: seq<Stream>, es: seq<Event>, s: Stream) returns (i: nat)
    requires Timed(es)
    ensures var times := Run(streams, es).progressTime;
            && (s in times ==> times[s] > 0 && i < |es| && IsProgress(es, s, i) && es[i].now == times[s])
            && (forall k :: 0 <= k < |es| && IsProgress(es, s, k) ==> s in times && es[k].now <= times[s])
  {
    hide Run;
    if es == [] {
      RunNone(streams);
      i := 0;
    } else {
      hide Advances, IsProgress, Timed;
      var rest, n := es[..|es| - 1], |es| - 1;
      TimedPrefix(es);
      i := ProgressTimes(streams, rest, s);
      RunTimes(streams, es);
      forall k | 0 <= k < n ensures IsProgress(es, s, k) <==> IsProgress(rest, s, k) {
        ProgressOfPrefix(es, s, k);
      }
      ProgressIsAdvance(streams, es, s);
      if IsProgress(es, s, n) {
        i := n;
      }
    }
  }

  lemma {:induction false} ProgressOfPrefix(es: seq<Event>, s: Stream, k: nat)
    requires k < |es| - 1
    ensures IsProgress(es, s, k) <==> IsProgress(es[..|es| - 1], s, k)
  {
    var rest := es[..|es| - 1];
    assert forall j :: 0 <= j < |rest| ==> rest[j] == es[j];
  }

  lemma {:induction false} ProgressIsAdvance(streams: seq<Stream>, es: seq<Event>, s: Stream)
    requires es != []
    ensures var rest, n := es[..|es| - 1], |es| - 1;
            IsProgress(es, s, n) <==> From(es[n], s) && Advances(Run(streams, rest), s, es[n].slot)
  {
    hide Run;
    var rest, n := es[..|es| - 1], |es| - 1;
    var i := LastSlotIsGreatest(streams, rest, s);
    assert forall k :: 0 <= k < n ==> rest[k] == es[k];
  }
}
