/** The outbound router: messages go into one bounded queue per connection, and a connection that
    cannot keep up is disconnected rather than served with gaps. */
module Transport {
  import opened Wrappers
  import opened Ids

  const CHANNEL_CAPACITY: nat := 128

  // ---------- Messages and connections ----------

  /** A notification of either kind carries a method; only command approvals carry fields that are
      stripped for clients without the experimental API. */
  datatype Message =
    | CommandApprovalRequest(payload: string, additionalPermissions: Option<string>)
    | OtherRequest(payload: string)
    | Notification(methodName: string, payload: string)
    | Response(payload: string)
    | ErrorMessage(payload: string)

  datatype Envelope =
    | ToConnection(c: ConnectionId, message: Message)
    | Broadcast(message: Message)

  /** The router's entry for a connection. Only a connection with a disconnect token can be dropped
      when its queue is full. */
  datatype Connection = Connection(
    initialized: bool,
    experimental: bool,
    optedOut: set<string>,
    canDisconnect: bool)

  /** What a queue holds: routed messages, and overload errors that the reader pushes past the router. */
  datatype Item = Routed(message: Message) | Overload(message: Message)

  /** The queue of a connection, what its writer already took out, and whether the writer is there. */
  datatype Channel = Channel(queue: seq<Item>, received: seq<Item>, open: bool)

  function Filter(connection: Connection, message: Message): Message {
    if message.CommandApprovalRequest? && !connection.experimental then message.(additionalPermissions := None)
    else message
  }

  predicate Skips(connection: Connection, message: Message) {
    message.Notification? && message.methodName in connection.optedOut
  }

  // ---------- Steps ----------

  /** `work` holds the deliveries of the current envelope that are still to be made, and `waiting` the
      filtered message whose `send().await` waits for room. */
  datatype State = State(
    connections: map<ConnectionId, Connection>,
    channels: map<ConnectionId, Channel>,
    work: seq<(ConnectionId, Message)>,
    waiting: Option<(ConnectionId, Message)>)

  datatype Action =
    | Open(c: ConnectionId, canDisconnect: bool)
    | Close(c: ConnectionId)
    | DisconnectAll
    | Configure(c: ConnectionId, initialized: bool, experimental: bool, optedOut: set<string>)
    | Route(envelope: Envelope, order: seq<ConnectionId>)
    | Deliver
    | Drain(c: ConnectionId)
    | Hangup(c: ConnectionId)
    | PushOverload(c: ConnectionId, message: Message)

  const EMPTY := State(map[], map[], [], None)

  /** The router is in the middle of an envelope. */
  predicate Busy(s: State) {
    s.work != [] || s.waiting.Some?
  }

  /** The connections a broadcast goes to. */
  function Targets(s: State, message: Message): set<ConnectionId> {
    set c | c in s.connections && s.connections[c].initialized && !Skips(s.connections[c], message)
  }

  predicate Lists(order: seq<ConnectionId>, targets: set<ConnectionId>) {
    && (forall i, j :: 0 <= i < j < |order| ==> order[i] != order[j])
    && (forall c :: c in order ==> c in targets) && (forall c :: c in targets ==> c in order)
  }

  function WorkFor(order: seq<ConnectionId>, message: Message): seq<(ConnectionId, Message)> {
    if order == [] then [] else [(order[0], message)] + WorkFor(order[1..], message)
  }

  function Put(channel: Channel, item: Item): Channel {
    channel.(queue := channel.queue + [item])
  }

  predicate Full(channel: Channel) {
    |channel.queue| >= CHANNEL_CAPACITY
  }

  /** Offering a message to a queue: it is taken, or the send waits for room, or the connection goes. */
  function Offer(s: State, c: ConnectionId, message: Message): State
    requires c in s.connections && c in s.channels
  {
    var channel := s.channels[c];
    if channel.open && !Full(channel) then
      s.(channels := s.channels[c := Put(channel, Routed(message))], waiting := None)
    else if channel.open && !s.connections[c].canDisconnect then s.(waiting := Some((c, message)))
    else s.(connections := s.connections - {c}, waiting := None)
  }

  /** `send_message_to_connection`: a message for a connection that is gone, or a notification that it
      opted out of, is dropped; any other one is filtered and offered. */
  function Send(s: State, c: ConnectionId, message: Message): State {
    if c !in s.connections || c !in s.channels then s
    else
      var filtered := Filter(s.connections[c], message);
      if Skips(s.connections[c], filtered) then s else Offer(s, c, filtered)
  }

  /** The next delivery is begun, or the waiting one is tried again. */
  function DeliverNext(s: State): State {
    match s.waiting
    case Some((c, message)) => if c in s.connections && c in s.channels then Offer(s, c, message) else s
    case None => if s.work == [] then s else Send(s.(work := s.work[1..]), s.work[0].0, s.work[0].1)
  }

  function TakeOne(channel: Channel): Channel
    requires channel.queue != []
  {
    channel.(queue := channel.queue[1..], received := channel.received + [channel.queue[0]])
  }

  /** Control events and new envelopes are taken up only between envelopes; an action that is not
      possible leaves the state as it is. */
  function Step(s: State, action: Action): State {
    match action
    case Open(c, canDisconnect) =>
      if !Busy(s) && c !in s.channels then
        s.(connections := s.connections[c := Connection(false, false, {}, canDisconnect)],
           channels := s.channels[c := Channel([], [], true)])
      else s
    case Close(c) => if !Busy(s) then s.(connections := s.connections - {c}) else s
    case DisconnectAll => if !Busy(s) then s.(connections := map[]) else s
    case Configure(c, initialized, experimental, optedOut) =>
      if c in s.connections then
        s.(connections := s.connections[c := Connection(initialized, experimental, optedOut,
                                                        s.connections[c].canDisconnect)])
      else s
    case Route(envelope, order) =>
      if Busy(s) then s
      else
        match envelope {
          case ToConnection(c, message) => s.(work := [(c, message)])
          case Broadcast(message) =>
            if Lists(order, Targets(s, message)) then s.(work := WorkFor(order, message)) else s
        }
    case Deliver => DeliverNext(s)
    case Drain(c) =>
      if c in s.channels && s.channels[c].queue != [] then s.(channels := s.channels[c := TakeOne(s.channels[c])])
      else s
    case Hangup(c) => if c in s.channels then s.(channels := s.channels[c := s.channels[c].(open := false)]) else s
    case PushOverload(c, message) =>
      if c in s.channels && s.channels[c].open && !Full(s.channels[c]) then
        s.(channels := s.channels[c := Put(s.channels[c], Overload(message))])
      else s
  }

  function Run(s: State, actions: seq<Action>): State
    decreases |actions|
  {
    if actions == [] then s else Run(Step(s, actions[0]), actions[1..])
  }

  // ---------- Queues ----------

  function RoutedOf(items: seq<Item>): seq<Message> {
    if items == [] then []
    else
      var last := items[|items| - 1];
      RoutedOf(items[..|items| - 1]) + if last.Routed? then [last.message] else []
  }

  /** Everything that ever entered the queue. */
  function Entered(channel: Channel): seq<Item> {
    channel.received + channel.queue
  }

  lemma EnteredPut(channel: Channel, item: Item)
    ensures Entered(Put(channel, item)) == Entered(channel) + [item]
    ensures RoutedOf(Entered(Put(channel, item))) ==
            RoutedOf(Entered(channel)) + if item.Routed? then [item.message] else []
  {
    assert Entered(Put(channel, item)) == Entered(channel) + [item];
    assert (Entered(channel) + [item])[..|Entered(channel)|] == Entered(channel);
  }

  /** A connection in the table has a queue, queues respect their capacity, and a send waits only for a
      connection in the table. */
  ghost predicate Sound(s: State) {
    && (forall c :: c in s.connections ==> c in s.channels)
    && (forall c :: c in s.channels ==> |s.channels[c].queue| <= CHANNEL_CAPACITY)
    && (s.waiting.Some? ==> s.waiting.value.0 in s.connections)
  }

  lemma StepSound(s: State, action: Action)
    requires Sound(s)
    ensures Sound(Step(s, action))
  {
    hide Filter, Skips, Lists, Targets, WorkFor;
  }

  // ---------- Incoming messages under load ----------

  datatype Incoming = IncomingRequest(id: string) | OtherIncoming(payload: string)

  /** A bounded channel seen from its sending end. */
  datatype Inbox = Inbox(events: seq<(ConnectionId, Incoming)>, open: bool)

  /** What `enqueue_incoming_message` does before it returns or has to wait: the new inbox and writer
      queue, and whether the connection's reader goes on. `None` means that it waits for room. */
  function Enqueue(inbox: Inbox, writer: Channel, c: ConnectionId, message: Incoming)
    : (r: Option<(Inbox, Channel, bool)>)
  {
    if !inbox.open then Some((inbox, writer, false))
    else if |inbox.events| < CHANNEL_CAPACITY then
      Some((inbox.(events := inbox.events + [(c, message)]), writer, true))
    else if message.IncomingRequest? then
      if !writer.open then Some((inbox, writer, false))
      else if !Full(writer) then
        Some((inbox, Put(writer, Overload(ErrorMessage(message.id))), true))
      else Some((inbox, writer, true))
    else None
  }

  /** A message is taken in, or waits, or is a request that is answered with an overload error; it is
      dropped in silence only when both queues are full or one of them is closed. */
  lemma NothingDroppedUnlessFull(inbox: Inbox, writer: Channel, c: ConnectionId, message: Incoming)
    ensures var r := Enqueue(inbox, writer, c, message);
            r.Some? && r.value.0 == inbox && r.value.1 == writer <==>
            || !inbox.open
            || (|inbox.events| >= 128 && message.IncomingRequest?
                && (!writer.open || |writer.queue| >= 128))
    ensures var r := Enqueue(inbox, writer, c, message);
            r.Some? && r.value.1 != writer ==>
            RoutedOf(Entered(r.value.1)) == RoutedOf(Entered(writer))
  {
    if message.IncomingRequest? {
      EnteredPut(writer, Overload(ErrorMessage(message.id)));
    }
    assert |inbox.events + [(c, message)]| != |inbox.events|;
    if message.IncomingRequest? {
      assert |Put(writer, Overload(ErrorMessage(message.id))).queue| != |writer.queue|;
    }
  }

  /** A message is taken in at the end of the inbox exactly when that is open and has room. A writer's queue gets
      nothing but the overload error for the very request. The reader stops exactly when what it would have used is
      closed, and waits exactly with a message that is no request, for room in an open inbox. */
  lemma IncomingIsSettled(inbox: Inbox, writer: Channel, c: ConnectionId, message: Incoming)
    ensures var room := |inbox.events| < 128;
            match Enqueue(inbox, writer, c, message) {
              case None => inbox.open && !room && message.OtherIncoming?
              case Some((taken, answered, goesOn)) =>
                && (inbox.open && room <==> taken == Inbox(inbox.events + [(c, message)], true))
                && (!(inbox.open && room) ==> taken == inbox)
                && (answered != writer ==>
                      !room && message.IncomingRequest? &&
                      Entered(answered) == Entered(writer) + [Overload(ErrorMessage(message.id))])
                && (goesOn <==> inbox.open && (room || writer.open))
                && (!room && inbox.open ==> message.IncomingRequest?)
            }
  {
    assert |inbox.events + [(c, message)]| != |inbox.events|;
    if message.IncomingRequest? {
      EnteredPut(writer, Overload(ErrorMessage(message.id)));
    }
  }

  /** What a full inbox does to a connection's queue is the step that pushes an overload error. */
  lemma OverloadIsPushed(s: State, inbox: Inbox, c: ConnectionId, id: string)
    requires c in s.channels && inbox.open && |inbox.events| >= CHANNEL_CAPACITY
    ensures var r := Enqueue(inbox, s.channels[c], c, IncomingRequest(id));
            r.Some? && Step(s, PushOverload(c, ErrorMessage(id))) == s.(channels := s.channels[c := r.value.1])
  {
    assert s.channels == s.channels[c := s.channels[c]];
  }

  // ---------- The object ----------

  /** An offer leaves nothing waiting unless the queue is full and the connection cannot be dropped. */
  lemma OfferSettles(s: State, c: ConnectionId, message: Message)
    requires c in s.connections && c in s.channels
    requires s.connections[c].canDisconnect || !s.channels[c].open || !Full(s.channels[c])
    ensures Offer(s, c, message).waiting.None? && Offer(s, c, message).work == s.work
  {
  }

  lemma {:induction false} RunSound(s: State, actions: seq<Action>)
    requires Sound(s)
    ensures Sound(Run(s, actions))
    decreases |actions|
  {
    hide Sound, Step;
    if actions == [] {
    } else {
      StepSound(s, actions[0]);
      RunSound(Step(s, actions[0]), actions[1..]);
    }
  }

  lemma RouteStep(s: State, envelope: Envelope, order: seq<ConnectionId>)
    requires !Busy(s)
    requires envelope.Broadcast? ==> Lists(order, Targets(s, envelope.message))
    ensures Run(s, [Route(envelope, order)]) ==
            s.(work := WorkFor(if envelope.ToConnection? then [envelope.c] else order, envelope.message))
  {
    assert [Route(envelope, order)][1..] == [];
    assert Run(Step(s, Route(envelope, order)), []) == Step(s, Route(envelope, order));
    if envelope.ToConnection? {
      assert [envelope.c][1..] == [];
      assert WorkFor([envelope.c], envelope.message) ==
             [(envelope.c, envelope.message)] + WorkFor([], envelope.message);
    }
  }

  lemma {:induction false} RunAppend(s: State, first: seq<Action>, second: seq<Action>)
    ensures Run(s, first + second) == Run(Run(s, first), second)
    decreases |first|
  {
    hide Step;
    if first == [] {
      assert first + second == second;
    } else {
      assert (first + second)[1..] == first[1..] + second;
      RunAppend(Step(s, first[0]), first[1..], second);
    }
  }

  lemma {:induction false} RunSnoc(s: State, actions: seq<Action>, last: Action)
    ensures Run(s, actions + [last]) == Step(Run(s, actions), last)
    decreases |actions|
  {
    hide Step;
    if actions == [] {
      assert [last][1..] == [];
      assert actions + [last] == [last];
      assert Run(Step(s, last), []) == Step(s, last);
    } else {
      assert (actions + [last])[1..] == actions[1..] + [last];
      RunSnoc(Step(s, actions[0]), actions[1..], last);
    }
  }

  class OutboundRouter {
    var connections: map<ConnectionId, Connection>
    var channels: map<ConnectionId, Channel>
    ghost var work: seq<(ConnectionId, Message)>
    ghost var waiting: Option<(ConnectionId, Message)>

    ghost function View(): State
      reads this
    {
      State(connections, channels, work, waiting)
    }

    constructor ()
      ensures View() == EMPTY
    {
      connections, channels, work, waiting := map[], map[], [], None;
    }

    /** `disconnect_connection`. */
    method DisconnectConnection(c: ConnectionId) returns (disconnected: bool)
      modifies `connections
      ensures connections == old(connections) - {c} && disconnected == (c in old(connections))
    {
      disconnected := c in connections;
      connections := connections - {c};
    }

    /** The wait of `send().await` on a full queue: the writer takes messages out, or goes away. */
    method AwaitRoom(c: ConnectionId) returns (ghost actions: seq<Action>)
      requires c in channels
      modifies `channels
      ensures c in channels && (channels[c].open ==> !Full(channels[c]))
      ensures View() == Run(old(View()), actions) && forall a :: a in actions ==> a == Drain(c) || a == Hangup(c)
    {
      actions := [];
      while channels[c].open && Full(channels[c])
        invariant c in channels
        invariant View() == Run(old(View()), actions)
        invariant forall a :: a in actions ==> a == Drain(c) || a == Hangup(c)
        decreases channels[c].open, |channels[c].queue|
      {
        ghost var before := View();
        ghost var action := Drain(c);
        if * {
          channels := channels[c := TakeOne(channels[c])];
        } else {
          channels := channels[c := channels[c].(open := false)];
          action := Hangup(c);
        }
        assert View() == Step(before, action);
        RunSnoc(old(View()), actions, action);
        actions := actions + [action];
      }
    }

    /** `try_send`, or the end of `send().await`: the queue takes the message, or the connection goes. */
    method PutOrDisconnect(c: ConnectionId, message: Message) returns (disconnected: bool)
      requires c in connections && c in channels
      requires connections[c].canDisconnect || !channels[c].open || !Full(channels[c])
      modifies `connections, `channels, `waiting
      ensures View() == Offer(old(View()), c, message)
      ensures disconnected <==> c !in connections
    {
      waiting := None;
      disconnected := false;
      if channels[c].open && !Full(channels[c]) {
        channels := channels[c := Put(channels[c], Routed(message))];
      } else {
        disconnected := DisconnectConnection(c);
      }
    }

    /** `send_message_to_connection`, for the first delivery that is left. */
    method SendMessageToConnection(c: ConnectionId, message: Message)
      returns (disconnected: bool, ghost actions: seq<Action>)
      requires work != [] && work[0] == (c, message) && waiting.None?
      requires Sound(View())
      modifies this
      ensures View() == Run(old(View()), actions)
      ensures forall a :: a in actions ==> a == Drain(c) || a == Hangup(c) || a == Deliver
      ensures work == old(work)[1..] && waiting.None?
      ensures disconnected <==> c in old(connections) && c !in connections
    {
      ghost var start := View();
      actions := [];
      disconnected := false;
      work := work[1..];
      if c in connections {
        var connection := connections[c];
        var filtered := Filter(connection, message);
        if !Skips(connection, filtered) {
          if !connection.canDisconnect && channels[c].open && Full(channels[c]) {
            waiting := Some((c, filtered));
            assert View() == Step(start, Deliver);
            var waited := AwaitRoom(c);
            actions := [Deliver] + waited;
            assert actions[1..] == waited;
          }
          ghost var before := View();
          assert actions == [] ==> Step(start, Deliver) == Offer(before, c, filtered);
          assert actions != [] ==> Step(before, Deliver) == Offer(before, c, filtered);
          assert before == Run(if actions == [] then before else start, actions);
          disconnected := PutOrDisconnect(c, filtered);
          OfferSettles(before, c, filtered);
          if actions != [] {
            RunSnoc(start, actions, Deliver);
          }
        }
      }
      if actions == [] {
        assert View() == Step(start, Deliver);
        RunSnoc(start, [], Deliver);
      }
      actions := actions + [Deliver];
    }

    /** `route_outgoing_envelope`: the targets of a broadcast are collected first, in the order in which
        the table yields them, and then sent to one by one. */
    method RouteOutgoingEnvelope(envelope: Envelope, order: seq<ConnectionId>) returns (ghost actions: seq<Action>)
      requires !Busy(View()) && Sound(View())
      requires envelope.Broadcast? ==> Lists(order, Targets(View(), envelope.message))
      modifies this
      ensures View() == Run(old(View()), [Route(envelope, order)] + actions)
      ensures !Busy(View()) && Sound(View())
      ensures forall a :: a in actions ==> a.Drain? || a.Hangup? || a == Deliver
    {
      hide Step, Sound, Skips, Filter, Lists, Targets;
      var targets := if envelope.ToConnection? then [envelope.c] else order;
      ghost var start := old(View());
      work := WorkFor(targets, envelope.message);
      actions := [];
      assert View() == Run(start, [Route(envelope, order)]) by { RouteStep(start, envelope, order); }
      RunSound(start, [Route(envelope, order)]);
      assert [Route(envelope, order)] + actions == [Route(envelope, order)];
      while targets != []
        invariant work == WorkFor(targets, envelope.message) && waiting.None?
        invariant View() == Run(start, [Route(envelope, order)] + actions) && Sound(View())
        invariant forall a :: a in actions ==> a.Drain? || a.Hangup? || a == Deliver
        decreases |targets|
      {
        ghost var here := View();
        var _, sent := SendMessageToConnection(targets[0], envelope.message);
        RunAppend(start, [Route(envelope, order)] + actions, sent);
        RunSound(here, sent);
        assert [Route(envelope, order)] + (actions + sent) == [Route(envelope, order)] + actions + sent;
        actions := actions + sent;
        targets := targets[1..];
      }
    }
  }
}
