/** The websocket server with several feeds: the channel registry and the feed selector together. */
module FeedRegistry {
  import opened Wrappers
  import R = ChannelRegistry
  import S = StreamSelector

  datatype State = State(subscribers: R.Subscribers, selector: S.State)

  datatype Event =
    | Subscribe(ws: R.Socket, channel: string)
    | Unsubscribe(ws: R.Socket, channel: string)
    | Close(ws: R.Socket)
    | Message(channel: string, source: S.Stream, slot: nat, now: nat)
    | Health(now: nat)

  /** The selector sees a message only if its channel has an entry and is an orderbook. */
  predicate Seen(st: State, channel: string)
  {
    channel in st.subscribers && R.IsOrderbook(channel)
  }

  predicate Forwards(st: State, streams: seq<S.Stream>, channel: string, source: S.Stream, slot: nat, now: nat)
  {
    && channel in st.subscribers
    && (R.IsOrderbook(channel) ==> S.Record(st.selector, streams, source, slot, now).1)
  }

  function Recipients(st: State, streams: seq<S.Stream>, channel: string, source: S.Stream, slot: nat, now: nat,
                      conns: R.Connections): (r: set<R.Socket>)
  {
    if Forwards(st, streams, channel, source, slot, now)
    then set ws | ws in st.subscribers[channel] && R.Ready(conns, ws) else {}
  }

  function Step(st: State, streams: seq<S.Stream>, e: Event): (r: State)
  {
    match e
    case Subscribe(ws, ch) => st.(subscribers := R.Add(st.subscribers, ws, ch))
    case Unsubscribe(ws, ch) => st.(subscribers := R.Drop(st.subscribers, ws, ch))
    case Close(ws) => st.(subscribers := R.DropAll(st.subscribers, ws))
    case Message(ch, source, slot, now) =>
      if Seen(st, ch) then st.(selector := S.Record(st.selector, streams, source, slot, now).0) else st
    case Health(now) => st.(selector := S.Check(st.selector, streams, now).0)
  }

  function Run(streams: seq<S.Stream>, es: seq<Event>): (r: State)
  {
    if es == [] then State(map[], S.Run(streams, []))
    else Step(Run(streams, es[..|es| - 1]), streams, es[|es| - 1])
  }

  // ------------------------------------------------------------------ the message handler

  class Server {
    var subscribers: R.Subscribers
    const selector: S.Selector

    ghost function View(): (r: State)
      reads this, selector
    {
      State(subscribers, selector.View())
    }

    constructor (streams: seq<S.Stream>)
      ensures fresh(selector) && selector.streams == streams && View() == Run(streams, [])
    {
      subscribers := map[];
      selector := new S.Selector(streams);
    }

    method OnMessage(channel: string, source: S.Stream, slot: nat, now: nat, conns: R.Connections)
      returns (sent: set<R.Socket>)
      modifies selector
      ensures View() == Step(old(View()), selector.streams, Message(channel, source, slot, now))
      ensures sent == Recipients(old(View()), selector.streams, channel, source, slot, now, conns)
    {
      hide S.Record;
      if channel !in subscribers {
        return {};
      }
      if R.IsOrderbook(channel) {
        var shouldForward := selector.RecordMessage(source, slot, now);
        if !shouldForward {
          return {};
        }
      }
      sent := R.Server.Broadcast(subscribers[channel], conns);
    }
  }

  // ------------------------------------------------------------- the two halves of a run

  /** What the sockets did. */
  function SocketEvents(es: seq<Event>): (r: seq<R.Event>)
  {
    if es == [] then []
    else
      SocketEvents(es[..|es| - 1])
      + (match es[|es| - 1]
         case Subscribe(ws, ch) => [R.Subscribe(ws, ch)]
         case Unsubscribe(ws, ch) => [R.Unsubscribe(ws, ch)]
         case Close(ws) => [R.Close(ws)]
         case _ => [])
  }

  /** What the selector was told. */
  function FeedEvents(streams: seq<S.Stream>, es: seq<Event>): (r: seq<S.Event>)
  {
    if es == [] then []
    else
      var rest := es[..|es| - 1];
      FeedEvents(streams, rest)
      + (match es[|es| - 1]
         case Message(ch, source, slot, now) =>
           if Seen(Run(streams, rest), ch) then [S.Message(source, slot, now)] else []
         case Health(now) => [S.Health(now)]
         case _ => [])
  }

  lemma {:induction false} SocketSnoc(es: seq<R.Event>, e: R.Event)
    ensures var before, after := R.Run(es).subscribers, R.Run(es + [e]).subscribers;
            match e
            case Subscribe(ws, ch) => after == R.Add(before, ws, ch)
            case Unsubscribe(ws, ch) => after == R.Drop(before, ws, ch)
            case Close(ws) => after == R.DropAll(before, ws)
            case Message(_, _) => after == before
  {
    hide R.Forwards, R.IsOrderbook, R.Add, R.Drop, R.DropAll;
    assert (es + [e])[..|es|] == es;
  }

  lemma {:induction false} FeedSnoc(streams: seq<S.Stream>, es: seq<S.Event>, e: S.Event)
    ensures S.Run(streams, es + [e]) == S.Step(S.Run(streams, es), streams, e)
  {
    hide S.Step;
    assert (es + [e])[..|es|] == es;
  }

  lemma {:induction false} SocketsSplit(streams: seq<S.Stream>, es: seq<Event>)
    ensures Run(streams, es).subscribers == R.Run(SocketEvents(es)).subscribers
  {
    if es == [] {
    } else {
      hide R.Run, R.Step, R.Add, R.Drop, R.DropAll, S.Run, S.Record, S.Check, Seen;
      var rest, e := es[..|es| - 1], es[|es| - 1];
      SocketsSplit(streams, rest);
      var ss := SocketEvents(rest);
      assert ss + [] == ss;
      match e
      case Subscribe(ws, ch) => SocketSnoc(ss, R.Subscribe(ws, ch));
      case Unsubscribe(ws, ch) => SocketSnoc(ss, R.Unsubscribe(ws, ch));
      case Close(ws) => SocketSnoc(ss, R.Close(ws));
      case _ =>
    }
  }

  lemma {:induction false} FeedsSplit(streams: seq<S.Stream>, es: seq<Event>)
    ensures Run(streams, es).selector == S.Run(streams, FeedEvents(streams, es))
  {
    if es == [] {
    } else {
      hide S.Run, S.Record, S.Check, R.Add, R.Drop, R.DropAll, Seen;
      var rest, e := es[..|es| - 1], es[|es| - 1];
      FeedsSplit(streams, rest);
      var fs := FeedEvents(streams, rest);
      assert fs + [] == fs;
      match e
      case Message(_, source, slot, now) => FeedSnoc(streams, fs, S.Message(source, slot, now));
      case Health(now) => FeedSnoc(streams, fs, S.Health(now));
      case _ =>
    }
  }

  /** The registry and the selector each run on their own events, so what holds of their runs holds
  here. */
  lemma {:induction false} RunSplits(streams: seq<S.Stream>, es: seq<Event>)
    ensures Run(streams, es).subscribers == R.Run(SocketEvents(es)).subscribers
    ensures Run(streams, es).selector == S.Run(streams, FeedEvents(streams, es))
  {
    SocketsSplit(streams, es);
    FeedsSplit(streams, es);
  }

  /** After any run, a message of a feed reaches a socket exactly when the socket is open and not backed
  up, its latest action on the channel was to subscribe, and, on an orderbook channel, the feed is the
  active one once its message is recorded. */
  lemma {:induction false} DeliveredExactlyWhen(streams: seq<S.Stream>, es: seq<Event>, channel: string,
                                                source: S.Stream, slot: nat, now: nat, conns: R.Connections,
                                                ws: R.Socket)
    ensures ws in Recipients(Run(streams, es), streams, channel, source, slot, now, conns)
       <==> && R.Ready(conns, ws) && R.Live(SocketEvents(es), ws, channel)
            && (R.IsOrderbook(channel) ==>
                  S.Record(S.Run(streams, FeedEvents(streams, es)), streams, source, slot, now).0.active
                  == Some(source))
  {
    hide Run, S.Run, R.Run, S.Record, R.IsOrderbook, SocketEvents, FeedEvents;
    RunSplits(streams, es);
    R.RegistryAgrees(SocketEvents(es), ws, channel);
    S.ForwardedIsActive(Run(streams, es).selector, streams, source, slot, now);
  }
}
