/** The websocket server's channel registry and its orderbook slot guard (single source). */
module ChannelRegistry {

  const MAX_BUFFERED_AMOUNT := 300_000

  type Socket = nat

  /** What the send looks at: whether the socket is open, and how much is still unsent on it. */
  datatype Connection = Connection(open: bool, bufferedAmount: nat)

  type Connections = map<Socket, Connection>

  predicate Ready(conns: Connections, ws: Socket)
  {
    ws in conns && conns[ws].open && conns[ws].bufferedAmount < MAX_BUFFERED_AMOUNT
  }

  type Subscribers = map<string, set<Socket>>

  datatype Registry = Registry(subscribers: Subscribers, slots: map<string, nat>)

  datatype Event =
    | Subscribe(ws: Socket, channel: string)
    | Unsubscribe(ws: Socket, channel: string)
    | Close(ws: Socket)
    | Message(channel: string, slot: nat)

  predicate WordAt(s: string, i: nat)
    requires i + 9 <= |s|
  {
    s[i..i + 9] == "orderbook"
  }

  predicate IsOrderbook(channel: string)
  {
    exists i :: 0 <= i <= |channel| - 9 && WordAt(channel, i)
  }

  function Add(m: Subscribers, ws: Socket, channel: string): (r: Subscribers)
  {
    m[channel := (if channel in m then m[channel] else {}) + {ws}]
  }

  function Drop(m: Subscribers, ws: Socket, channel: string): (r: Subscribers)
  {
    if channel in m then m[channel := m[channel] - {ws}] else m
  }

  /** Closing takes the socket out everywhere and drops the entries it leaves empty. */
  function DropAll(m: Subscribers, ws: Socket): (r: Subscribers)
  {
    map ch | ch in m && m[ch] != {ws} :: m[ch] - {ws}
  }

  /** One entry visited while closing. */
  function Visited(m: Subscribers, ws: Socket, ch: string): (r: Subscribers)
    requires ch in m
  {
    if m[ch] == {ws} then m - {ch} else m[ch := m[ch] - {ws}]
  }

  /** Closing with the entries in `todo` still to visit. */
  function Closing(m: Subscribers, ws: Socket, todo: set<string>): (r: Subscribers)
  {
    map ch | ch in m && (ch in todo || m[ch] != {ws}) :: if ch in todo then m[ch] else m[ch] - {ws}
  }

  lemma {:induction false} ClosingStep(m: Subscribers, ws: Socket, todo: set<string>, ch: string)
    requires ch in todo && ch in m
    ensures Visited(Closing(m, ws, todo), ws, ch) == Closing(m, ws, todo - {ch})
  {
  }

  /** Is a message passed on? An empty entry still counts as one; a recorded slot of zero does
  not count as recorded. */
  predicate Forwards(r: Registry, channel: string, slot: nat)
  {
    && channel in r.subscribers
    && (IsOrderbook(channel) ==>
          channel !in r.slots || r.slots[channel] == 0 || r.slots[channel] <= slot)
  }

  function Step(r: Registry, e: Event): (s: Registry)
  {
    match e
    case Subscribe(ws, ch) => r.(subscribers := Add(r.subscribers, ws, ch))
    case Unsubscribe(ws, ch) => r.(subscribers := Drop(r.subscribers, ws, ch))
    case Close(ws) => r.(subscribers := DropAll(r.subscribers, ws))
    case Message(ch, slot) =>
      if Forwards(r, ch, slot) && IsOrderbook(ch) then r.(slots := r.slots[ch := slot]) else r
  }

  function Run(es: seq<Event>): (r: Registry)
  {
    if es == [] then Registry(map[], map[]) else Step(Run(es[..|es| - 1]), es[|es| - 1])
  }

  /** The sockets a message is written to. */
  function Recipients(r: Registry, channel: string, slot: nat, conns: Connections): (s: set<Socket>)
  {
    if Forwards(r, channel, slot) then set ws | ws in r.subscribers[channel] && Ready(conns, ws) else {}
  }

  // ------------------------------------------------------------------ the event handlers

  class Server {
    var subscribers: Subscribers
    var slots: map<string, nat>

    ghost function View(): (r: Registry)
      reads this
    {
      Registry(subscribers, slots)
    }

    constructor ()
      ensures View() == Run([])
    {
      subscribers, slots := map[], map[];
    }

    method OnSubscribe(ws: Socket, channel: string)
      modifies this`subscribers
      ensures View() == Step(old(View()), Subscribe(ws, channel))
    {
      if channel !in subscribers {
        subscribers := subscribers[channel := {}];
      }
      subscribers := subscribers[channel := subscribers[channel] + {ws}];
    }

    method OnUnsubscribe(ws: Socket, channel: string)
      modifies this`subscribers
      ensures View() == Step(old(View()), Unsubscribe(ws, channel))
    {
      if channel in subscribers {
        subscribers := subscribers[channel := subscribers[channel] - {ws}];
      }
    }

    /** Visits every entry, in whatever order. */
    method OnClose(ws: Socket)
      modifies this`subscribers
      ensures View() == Step(old(View()), Close(ws))
    {
      var todo := subscribers.Keys;
      assert subscribers == Closing(subscribers, ws, todo);
      while todo != {}
        invariant todo <= old(subscribers).Keys
        invariant subscribers == Closing(old(subscribers), ws, todo)
        decreases |todo|
      {
        var ch :| ch in todo;
        Visit(ws, ch);
        ClosingStep(old(subscribers), ws, todo, ch);
        todo := todo - {ch};
      }
    }

    method Visit(ws: Socket, ch: string)
      requires ch in subscribers
      modifies this`subscribers
      ensures subscribers == Visited(old(subscribers), ws, ch)
    {
      var had := ws in subscribers[ch];
      subscribers := subscribers[ch := subscribers[ch] - {ws}];
      if had && subscribers[ch] == {} {
        subscribers := subscribers - {ch};
      }
    }

    static method Broadcast(sockets: set<Socket>, conns: Connections) returns (sent: set<Socket>)
      ensures sent == set ws | ws in sockets && Ready(conns, ws)
    {
      sent := {};
      var todo := sockets;
      while todo != {}
        invariant todo <= sockets
        invariant sent == set ws | ws in sockets - todo && Ready(conns, ws)
        decreases |todo|
      {
        var ws :| ws in todo;
        if Ready(conns, ws) {
          sent := sent + {ws};
        }
        todo := todo - {ws};
      }
    }

    method OnMessage(channel: string, slot: nat, conns: Connections) returns (sent: set<Socket>)
      modifies this`slots
      ensures View() == Step(old(View()), Message(channel, slot))
      ensures sent == Recipients(old(View()), channel, slot, conns)
    {
      if channel !in subscribers {
        return {};
      }
      if IsOrderbook(channel) {
        if channel !in slots || slots[channel] == 0 || slots[channel] <= slot {
          slots := slots[channel := slot];
        } else {
          return {};
        }
      }
      sent := Broadcast(subscribers[channel], conns);
    }
  }

  // ------------------------------------------------------------- agreement with history

  /** The socket's latest action that concerns the channel was to subscribe. */
  predicate Live(es: seq<Event>, ws: Socket, channel: string)
  {
    if es == [] then false
    else
      var e := es[|es| - 1];
      if e == Subscribe(ws, channel) then true
      else if e == Unsubscribe(ws, channel) || e == Close(ws) then false
      else Live(es[..|es| - 1], ws, channel)
  }

  /** The orderbook slots passed on so far on a channel, in order. */
  function Passed(es: seq<Event>, channel: string): (r: seq<nat>)
  {
    if es == [] then []
    else
      var rest, e := es[..|es| - 1], es[|es| - 1];
      Passed(rest, channel)
      + (if e.Message? && e.channel == channel && Forwards(Run(rest), channel, e.slot) then [e.slot] else [])
  }

  predicate Listed(r: Registry, ws: Socket, channel: string)
  {
    channel in r.subscribers && ws in r.subscribers[channel]
  }

  /** In every run the channel map agrees with the history. */
  lemma {:induction false} RegistryAgrees(es: seq<Event>, ws: Socket, channel: string)
    ensures Listed(Run(es), ws, channel) <==> Live(es, ws, channel)
  {
    if es == [] {
    } else {
      RegistryAgrees(es[..|es| - 1], ws, channel);
    }
  }

  ghost predicate Ascending(xs: seq<nat>)
  {
    forall i, j :: 0 <= i < j < |xs| ==> xs[i] <= xs[j]
  }

  /** In every run the slots passed on for an orderbook channel never decrease, and the recorded
  slot is the last of them. */
  lemma {:induction false} PassedNeverDecrease(es: seq<Event>, channel: string)
    requires IsOrderbook(channel)
    ensures Ascending(Passed(es, channel))
    ensures channel in Run(es).slots <==> Passed(es, channel) != []
    ensures Passed(es, channel) != [] ==> Run(es).slots[channel] == Passed(es, channel)[|Passed(es, channel)| - 1]
  {
    if es == [] {
    } else {
      hide IsOrderbook, Add, Drop, DropAll;
      PassedNeverDecrease(es[..|es| - 1], channel);
    }
  }

  /** After any run, a message reaches a socket exactly when the socket is open and not backed up, its
  latest action on the channel was to subscribe, and, on an orderbook channel, no later slot has been
  passed on. */
  lemma {:induction false} DeliveredExactlyWhen(es: seq<Event>, channel: string, slot: nat, conns: Connections,
                                                ws: Socket)
    ensures ws in Recipients(Run(es), channel, slot, conns)
       <==> Ready(conns, ws) && Live(es, ws, channel)
            && (IsOrderbook(channel) ==>
                  forall i :: 0 <= i < |Passed(es, channel)| ==> Passed(es, channel)[i] <= slot)
  {
    hide IsOrderbook, Run, Passed, Live;
    RegistryAgrees(es, ws, channel);
    if IsOrderbook(channel) { PassedNeverDecrease(es, channel); }
  }

  // ------------------------------------------------------------------- empty entries

  predicate HasEmptyEntry(r: Registry, channel: string)
  {
    channel in r.subscribers && r.subscribers[channel] == {}
  }

  /** An empty entry appears exactly when the only subscriber unsubscribes without closing, and
  goes away exactly when somebody subscribes again. */
  lemma {:induction false} EmptyEntryExactlyWhen(r: Registry, e: Event, channel: string)
    ensures !HasEmptyEntry(r, channel) ==>
              (HasEmptyEntry(Step(r, e), channel) <==>
                 e.Unsubscribe? && e.channel == channel && channel in r.subscribers
                 && r.subscribers[channel] == {e.ws})
    ensures HasEmptyEntry(r, channel) ==>
              (!HasEmptyEntry(Step(r, e), channel) <==> e.Subscribe? && e.channel == channel)
  {
    if e.Close? && channel in r.subscribers && r.subscribers[channel] != {e.ws} {
      if r.subscribers[channel] - {e.ws} == {} {
        assert r.subscribers[channel] <= {e.ws};
      }
    }
    if e.Unsubscribe? && e.channel == channel && channel in r.subscribers && r.subscribers[channel] - {e.ws} == {} {
      assert r.subscribers[channel] == {} || r.subscribers[channel] == {e.ws};
    }
    if e.Subscribe? && e.channel == channel {
      assert e.ws in Step(r, e).subscribers[channel];
    }
  }

  /** So an entry can outlive every socket: unsubscribe, then close. */
  lemma {:induction false} EmptyEntryOutlivesSocket(ws: Socket, channel: string)
    ensures HasEmptyEntry(Run([Subscribe(ws, channel), Unsubscribe(ws, channel), Close(ws)]), channel)
  {
    var e1, e2 := [Subscribe(ws, channel)], [Subscribe(ws, channel), Unsubscribe(ws, channel)];
    var e3 := [Subscribe(ws, channel), Unsubscribe(ws, channel), Close(ws)];
    assert e3[..2] == e2 && e2[..1] == e1 && e1[..0] == [];
    assert Run(e1).subscribers[channel] == {ws};
    assert Run(e2) == Step(Run(e1), Unsubscribe(ws, channel));
    EmptyEntryExactlyWhen(Run(e1), Unsubscribe(ws, channel), channel);
    EmptyEntryExactlyWhen(Run(e2), Close(ws), channel);
  }
}
