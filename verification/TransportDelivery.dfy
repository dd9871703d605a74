/** What the outbound router delivers, over whole runs: no gaps, nothing that was not routed, nothing that
    a connection must not see. */
module TransportDelivery {
  import opened Wrappers
  import opened Ids
  import opened Transport

  // ---------- What is meant for a connection ----------

  /** The message for `c` that a step takes up, as it was routed. */
  function Attempted(s: State, action: Action, c: ConnectionId): seq<Message> {
    if action.Deliver? && s.waiting.None? && s.work != [] && s.work[0].0 == c then [s.work[0].1] else []
  }

  /** What a connection with these settings is to be sent for a message. */
  function Wanted(connection: Connection, message: Message): seq<Message> {
    var filtered := Filter(connection, message);
    if Skips(connection, filtered) then [] else [filtered]
  }

  /** What `c` is to be sent for the message that a step takes up, by its settings at that moment; a
      connection that is not in the table is sent nothing. */
  function Meant(s: State, action: Action, c: ConnectionId): seq<Message> {
    if Attempted(s, action, c) != [] && c in s.connections
    then Wanted(s.connections[c], Attempted(s, action, c)[0]) else []
  }

  /** The message that an envelope accepted by a step aims at `c`. */
  function Aimed(s: State, action: Action, c: ConnectionId): seq<Message> {
    if !action.Route? || Busy(s) then []
    else
      match action.envelope
      case ToConnection(d, message) => if c == d then [message] else []
      case Broadcast(message) =>
        if Lists(action.order, Targets(s, message)) && c in Targets(s, message) then [message] else []
  }

  function AllAttempted(s: State, actions: seq<Action>, c: ConnectionId): seq<Message>
    decreases |actions|
  {
    if actions == [] then []
    else Attempted(s, actions[0], c) + AllAttempted(Step(s, actions[0]), actions[1..], c)
  }

  function AllMeant(s: State, actions: seq<Action>, c: ConnectionId): seq<Message>
    decreases |actions|
  {
    if actions == [] then [] else Meant(s, actions[0], c) + AllMeant(Step(s, actions[0]), actions[1..], c)
  }

  function AllAimed(s: State, actions: seq<Action>, c: ConnectionId): seq<Message>
    decreases |actions|
  {
    if actions == [] then [] else Aimed(s, actions[0], c) + AllAimed(Step(s, actions[0]), actions[1..], c)
  }

  // ---------- Gapless delivery ----------

  /** The routed messages that ever entered the queue of `c`. */
  function EnteredFor(s: State, c: ConnectionId): seq<Message> {
    if c in s.channels then RoutedOf(Entered(s.channels[c])) else []
  }

  function WaitingFor(s: State, c: ConnectionId): seq<Message> {
    if s.waiting.Some? && s.waiting.value.0 == c then [s.waiting.value.1] else []
  }

  lemma EnteredTakeOne(channel: Channel)
    requires channel.queue != []
    ensures Entered(TakeOne(channel)) == Entered(channel)
  {
  }

  lemma NothingEntered()
    ensures RoutedOf(Entered(Channel([], [], true))) == []
  {
    assert Entered(Channel([], [], true)) == [];
  }

  /** `log` holds what was meant for `c`. While `c` is in the table all of it has entered the queue or
      waits to; afterwards at most its last message, the refused one, has not. */
  ghost predicate GaplessFor(s: State, c: ConnectionId, log: seq<Message>) {
    var entered := EnteredFor(s, c);
    && (c !in s.channels ==> log == [])
    && (c in s.connections ==> entered + WaitingFor(s, c) == log)
    && (c !in s.connections ==> entered == log || (log != [] && entered == log[..|log| - 1]))
  }

  lemma EnteredIgnoresOpen(channel: Channel)
    ensures Entered(channel.(open := false)) == Entered(channel)
  {
  }

  lemma OfferEntered(s: State, d: ConnectionId, message: Message, c: ConnectionId)
    requires d in s.connections && d in s.channels
    ensures var r := Offer(s, d, message);
            if c != d then
              && EnteredFor(r, c) == EnteredFor(s, c) && WaitingFor(r, c) == []
              && (c in r.connections <==> c in s.connections)
            else if c in r.connections then
              EnteredFor(r, c) + WaitingFor(r, c) == EnteredFor(s, c) + [message]
            else EnteredFor(r, c) == EnteredFor(s, c)
    ensures EnteredFor(s, c) <= EnteredFor(Offer(s, d, message), c)
  {
    EnteredPut(s.channels[d], Routed(message));
    hide RoutedOf, Entered, Put;
  }

  lemma DeliverEntered(s: State, c: ConnectionId)
    requires Sound(s)
    ensures var r := DeliverNext(s);
            && (c in r.connections ==>
                  c in s.connections &&
                  EnteredFor(r, c) + WaitingFor(r, c) == EnteredFor(s, c) + WaitingFor(s, c) + Meant(s, Deliver, c))
            && (c !in r.connections ==> EnteredFor(r, c) == EnteredFor(s, c))
            && EnteredFor(s, c) <= EnteredFor(r, c)
  {
    hide RoutedOf, Entered, Put, Filter, Skips;
    match s.waiting
    case Some((d, message)) => OfferEntered(s, d, message, c);
    case None =>
      if s.work != [] {
        var d, message := s.work[0].0, s.work[0].1;
        if d in s.connections {
          OfferEntered(s.(work := s.work[1..]), d, Filter(s.connections[d], message), c);
        }
      }
  }

  /** What one step does to the queue of `c`. */
  lemma StepEntered(s: State, action: Action, c: ConnectionId)
    requires Sound(s)
    ensures var r := Step(s, action);
            var meant := Meant(s, action, c);
            if c in r.connections then
              EnteredFor(r, c) + WaitingFor(r, c) == EnteredFor(s, c) + WaitingFor(s, c) + meant
            else EnteredFor(r, c) == EnteredFor(s, c)
    ensures EnteredFor(s, c) <= EnteredFor(Step(s, action), c)
  {
    hide RoutedOf, Entered, Filter, Skips, Put;
    match action
    case Deliver => DeliverEntered(s, c); hide DeliverNext;
    case Drain(d) =>
      if d in s.channels && s.channels[d].queue != [] {
        EnteredTakeOne(s.channels[d]);
      }
    case PushOverload(d, message) =>
      if d in s.channels {
        EnteredPut(s.channels[d], Overload(message));
      }
    case Hangup(d) =>
      if d in s.channels {
        EnteredIgnoresOpen(s.channels[d]);
      }
    case Open(d, canDisconnect) => NothingEntered();
    case _ =>
  }

  /** Only opening brings a connection into the table; queues stay, and a waiting send is not cut short
      by a control event. */
  lemma StepTable(s: State, action: Action, c: ConnectionId)
    requires Sound(s)
    ensures c !in s.connections && c in Step(s, action).connections ==> c !in s.channels && action.Open?
    ensures c in s.channels ==> c in Step(s, action).channels
    ensures c in s.connections && c !in Step(s, action).connections && WaitingFor(s, c) != [] ==> action.Deliver?
    ensures c in s.connections && c !in Step(s, action).connections ==> c in Step(s, action).channels
  {
    hide Filter, Skips, Lists, Targets, WorkFor;
  }

  lemma NothingForUnknown(s: State, c: ConnectionId)
    requires Sound(s) && c !in s.channels
    ensures EnteredFor(s, c) == [] && WaitingFor(s, c) == []
  {
  }

  lemma StepGapless(s: State, action: Action, c: ConnectionId, log: seq<Message>)
    requires Sound(s) && GaplessFor(s, c, log)
    ensures GaplessFor(Step(s, action), c, log + Meant(s, action, c))
  {
    var r, meant := Step(s, action), Meant(s, action, c);
    StepEntered(s, action, c);
    StepTable(s, action, c);
    assert c !in s.channels ==> c !in s.connections && meant == [];
    assert WaitingFor(s, c) == [] || meant == [];
    assert c !in r.channels ==> c !in s.channels;
    hide Step, Meant, EnteredFor;
    var entered, after := EnteredFor(s, c), log + meant;
    if c !in s.connections {
      assert meant == [] && after == log;
      if c in r.connections {
        NothingForUnknown(s, c);
      }
    } else if c !in r.connections {
      assert meant == [] ==> after == log;
      assert |WaitingFor(s, c)| <= 1 && |meant| <= 1;
      if WaitingFor(s, c) + meant != [] {
        assert after[..|after| - 1] == entered;
      }
    }
  }

  lemma {:induction false} RunGapless(s: State, actions: seq<Action>, c: ConnectionId, log: seq<Message>)
    requires Sound(s) && GaplessFor(s, c, log)
    ensures Sound(Run(s, actions)) && GaplessFor(Run(s, actions), c, log + AllMeant(s, actions, c))
    decreases |actions|
  {
    hide GaplessFor, Sound, Step, Meant;
    if actions == [] {
      assert log + [] == log;
    } else {
      var next, meant := Step(s, actions[0]), Meant(s, actions[0], c);
      StepSound(s, actions[0]);
      StepGapless(s, actions[0], c, log);
      RunGapless(next, actions[1..], c, log + meant);
      assert log + meant + AllMeant(next, actions[1..], c) == log + (meant + AllMeant(next, actions[1..], c));
    }
  }

  lemma {:induction false} RoutedOfPrefix(a: seq<Item>, b: seq<Item>)
    ensures RoutedOf(a) <= RoutedOf(a + b)
    decreases |b|
  {
    if b == [] {
      assert a + b == a;
    } else {
      var front := b[..|b| - 1];
      RoutedOfPrefix(a, front);
      assert (a + b)[..|a + b| - 1] == a + front;
    }
  }

  lemma EmptyIsGapless(c: ConnectionId)
    ensures Sound(EMPTY) && GaplessFor(EMPTY, c, [])
  {
  }

  /** What the writer of `c` took out of its queue. */
  function ReceivedBy(s: State, c: ConnectionId): seq<Message> {
    if c in s.channels then RoutedOf(s.channels[c].received) else []
  }

  lemma ReceivedIsPrefix(s: State, c: ConnectionId)
    ensures ReceivedBy(s, c) <= EnteredFor(s, c)
  {
    if c in s.channels {
      RoutedOfPrefix(s.channels[c].received, s.channels[c].queue);
    }
  }

  /** Over every run, with any interleaving of routing, draining, overload errors and hangups: while `c`
      is in the table, everything meant for it has entered its queue in order, but for a message that
      waits for room; once it is gone at most the last message meant for it, the refused one, is missing.
      So what its writer received has no gap. */
  lemma DeliveryHasNoGaps(actions: seq<Action>, c: ConnectionId)
    ensures var s, meant := Run(EMPTY, actions), AllMeant(EMPTY, actions, c);
            && (c in s.connections ==> EnteredFor(s, c) + WaitingFor(s, c) == meant)
            && (c !in s.connections ==>
                  EnteredFor(s, c) == meant || (meant != [] && EnteredFor(s, c) == meant[..|meant| - 1]))
            && ReceivedBy(s, c) <= EnteredFor(s, c) <= meant
            && (c in s.channels ==> |s.channels[c].queue| <= 128)
  {
    EmptyIsGapless(c);
    RunGapless(EMPTY, actions, c, []);
    ReceivedIsPrefix(Run(EMPTY, actions), c);
    hide Step, EnteredFor, ReceivedBy, Meant;
    assert [] + AllMeant(EMPTY, actions, c) == AllMeant(EMPTY, actions, c);
  }

  // ---------- From the envelopes to the queues ----------

  /** The messages for `c` among the deliveries that are left. */
  function WorkOf(work: seq<(ConnectionId, Message)>, c: ConnectionId): seq<Message> {
    if work == [] then [] else (if work[0].0 == c then [work[0].1] else []) + WorkOf(work[1..], c)
  }

  lemma {:induction false} WorkOfList(order: seq<ConnectionId>, message: Message, c: ConnectionId)
    requires forall i, j :: 0 <= i < j < |order| ==> order[i] != order[j]
    ensures WorkOf(WorkFor(order, message), c) == if c in order then [message] else []
  {
    if order == [] {
    } else {
      assert forall i :: 0 <= i < |order| - 1 ==> order[1..][i] == order[i + 1];
      WorkOfList(order[1..], message, c);
      assert WorkFor(order, message)[1..] == WorkFor(order[1..], message);
      assert c in order <==> c == order[0] || c in order[1..];
    }
  }

  lemma RouteAims(s: State, envelope: Envelope, order: seq<ConnectionId>, c: ConnectionId)
    ensures WorkOf(Step(s, Route(envelope, order)).work, c) == WorkOf(s.work, c) + Aimed(s, Route(envelope, order), c)
  {
    hide Skips, Targets;
    if !Busy(s) {
      match envelope {
        case ToConnection(d, message) => assert [(d, message)][1..] == [];
        case Broadcast(message) =>
          if Lists(order, Targets(s, message)) {
            WorkOfList(order, message, c);
          }
      }
    }
  }

  lemma SendKeepsWork(s: State, c: ConnectionId, message: Message)
    ensures Send(s, c, message).work == s.work
  {
  }

  /** A step moves messages for `c` from the envelopes to the deliveries, and from there to an attempt. */
  lemma StepAttempts(s: State, action: Action, c: ConnectionId)
    ensures Attempted(s, action, c) + WorkOf(Step(s, action).work, c) == WorkOf(s.work, c) + Aimed(s, action, c)
  {
    hide Filter, Skips, Targets;
    match action
    case Route(envelope, order) => RouteAims(s, envelope, order, c);
    case Deliver =>
      if s.waiting.None? && s.work != [] {
        SendKeepsWork(s.(work := s.work[1..]), s.work[0].0, s.work[0].1);
      }
    case _ =>
  }

  lemma Chain(a0: seq<Message>, w1: seq<Message>, w0: seq<Message>, m0: seq<Message>,
              a1: seq<Message>, w2: seq<Message>, m1: seq<Message>)
    requires a0 + w1 == w0 + m0 && a1 + w2 == w1 + m1
    ensures (a0 + a1) + w2 == w0 + (m0 + m1)
  {
    calc {
      (a0 + a1) + w2;
      a0 + (a1 + w2);
      a0 + (w1 + m1);
      (a0 + w1) + m1;
      (w0 + m0) + m1;
      w0 + (m0 + m1);
    }
  }

  lemma {:induction false} RunAttempts(s: State, actions: seq<Action>, c: ConnectionId)
    ensures AllAttempted(s, actions, c) + WorkOf(Run(s, actions).work, c) == WorkOf(s.work, c) + AllAimed(s, actions, c)
    decreases |actions|
  {
    hide Step, Attempted, Aimed, WorkOf;
    if actions == [] {
      assert [] + WorkOf(s.work, c) == WorkOf(s.work, c) + [];
    } else {
      var next, rest := Step(s, actions[0]), actions[1..];
      StepAttempts(s, actions[0], c);
      RunAttempts(next, rest, c);
      var a0, a1, w0, w1, w2 := Attempted(s, actions[0], c), AllAttempted(next, rest, c), WorkOf(s.work, c),
        WorkOf(next.work, c), WorkOf(Run(next, rest).work, c);
      var m0, m1 := Aimed(s, actions[0], c), AllAimed(next, rest, c);
      Chain(a0, w1, w0, m0, a1, w2, m1);
    }
  }

  /** Over every run: the messages taken up for `c`, and then those still to be delivered, are exactly
      the messages that the envelopes aimed at it, in order. */
  lemma AttemptsAreAimed(actions: seq<Action>, c: ConnectionId)
    ensures AllAttempted(EMPTY, actions, c) + WorkOf(Run(EMPTY, actions).work, c) == AllAimed(EMPTY, actions, c)
  {
    RunAttempts(EMPTY, actions, c);
    hide Step;
    assert WorkOf(EMPTY.work, c) + AllAimed(EMPTY, actions, c) == AllAimed(EMPTY, actions, c);
  }

  function AllWanted(connection: Connection, messages: seq<Message>): seq<Message> {
    if messages == [] then [] else Wanted(connection, messages[0]) + AllWanted(connection, messages[1..])
  }

  lemma {:induction false} AllWantedConcat(connection: Connection, a: seq<Message>, b: seq<Message>)
    ensures AllWanted(connection, a + b) == AllWanted(connection, a) + AllWanted(connection, b)
  {
    hide Wanted;
    if a == [] {
      assert a + b == b;
    } else {
      assert (a + b)[1..] == a[1..] + b;
      AllWantedConcat(connection, a[1..], b);
    }
  }

  /** What entered the queue of `c`, what waits to, and what is left of the current envelope for it. */
  function DueTo(s: State, c: ConnectionId, connection: Connection): seq<Message> {
    EnteredFor(s, c) + WaitingFor(s, c) + AllWanted(connection, WorkOf(s.work, c))
  }

  lemma RegroupMessages(x: seq<Message>, y: seq<Message>, l: seq<Message>, w: seq<Message>, a: seq<Message>)
    requires y + l == w + a
    ensures (x + y) + l == (x + w) + a
  {
    assert (x + y) + l == x + (y + l) == x + (w + a) == (x + w) + a;
  }

  lemma MeantIsWanted(s: State, action: Action, c: ConnectionId)
    requires c in s.connections
    ensures Meant(s, action, c) == AllWanted(s.connections[c], Attempted(s, action, c))
  {
    hide Wanted;
    var attempted := Attempted(s, action, c);
    if attempted != [] {
      assert attempted[1..] == [];
    }
  }

  lemma StepKeepsSettings(s: State, action: Action, c: ConnectionId)
    requires Sound(s) && c in s.connections && c in Step(s, action).connections
    requires !(action.Configure? && action.c == c)
    ensures Step(s, action).connections[c] == s.connections[c]
  {
    hide Filter, Skips, Lists, Targets, WorkFor;
  }

  lemma StepDue(s: State, action: Action, c: ConnectionId)
    requires Sound(s) && c in s.connections && c in Step(s, action).connections
    requires !(action.Configure? && action.c == c)
    ensures Step(s, action).connections[c] == s.connections[c]
    ensures DueTo(Step(s, action), c, s.connections[c]) ==
            DueTo(s, c, s.connections[c]) + AllWanted(s.connections[c], Aimed(s, action, c))
  {
    var connection, r := s.connections[c], Step(s, action);
    StepEntered(s, action, c);
    StepAttempts(s, action, c);
    StepKeepsSettings(s, action, c);
    var attempted, left := Attempted(s, action, c), WorkOf(r.work, c);
    AllWantedConcat(connection, attempted, left);
    AllWantedConcat(connection, WorkOf(s.work, c), Aimed(s, action, c));
    assert Meant(s, action, c) == AllWanted(connection, attempted) by { MeantIsWanted(s, action, c); }
    hide Step, EnteredFor, WaitingFor, WorkOf, AllWanted, Meant, Attempted, Aimed;
    RegroupMessages(EnteredFor(s, c) + WaitingFor(s, c), AllWanted(connection, attempted), AllWanted(connection, left),
            AllWanted(connection, WorkOf(s.work, c)), AllWanted(connection, Aimed(s, action, c)));
  }

  /** A connection that is gone gets nothing more from the router, and does not come back. */
  lemma GoneStaysGone(s: State, action: Action, c: ConnectionId)
    requires Sound(s) && c in s.channels && c !in s.connections
    ensures var r := Step(s, action);
            c in r.channels && c !in r.connections && EnteredFor(r, c) == EnteredFor(s, c)
  {
    StepEntered(s, action, c);
    StepTable(s, action, c);
    hide Step, EnteredFor;
  }

  /** Once a message was refused, no later one is ever put into the queue. */
  lemma {:induction false} GoneForever(s: State, actions: seq<Action>, c: ConnectionId)
    requires Sound(s) && c in s.channels && c !in s.connections
    ensures var r := Run(s, actions);
            c in r.channels && c !in r.connections && EnteredFor(r, c) == EnteredFor(s, c)
    decreases |actions|
  {
    hide Step, EnteredFor, Sound;
    if actions == [] {
    } else {
      StepSound(s, actions[0]);
      GoneStaysGone(s, actions[0], c);
      GoneForever(Step(s, actions[0]), actions[1..], c);
    }
  }

  predicate Reconfigures(actions: seq<Action>, c: ConnectionId) {
    exists i :: 0 <= i < |actions| && actions[i].Configure? && actions[i].c == c
  }

  lemma StaysUntil(s: State, actions: seq<Action>, c: ConnectionId)
    requires Sound(s) && c in s.connections && c in Run(s, actions).connections && actions != []
    ensures c in Step(s, actions[0]).connections
  {
    StepSound(s, actions[0]);
    StepTable(s, actions[0], c);
    hide Step, EnteredFor;
    var next := Step(s, actions[0]);
    if c !in next.connections {
      GoneForever(next, actions[1..], c);
    }
  }

  lemma {:induction false} RunDue(s: State, actions: seq<Action>, c: ConnectionId)
    requires Sound(s) && c in s.connections && c in Run(s, actions).connections && !Reconfigures(actions, c)
    ensures DueTo(Run(s, actions), c, s.connections[c]) ==
            DueTo(s, c, s.connections[c]) + AllWanted(s.connections[c], AllAimed(s, actions, c))
    decreases |actions|
  {
    hide Step, Aimed, DueTo, Wanted;
    var connection := s.connections[c];
    if actions == [] {
      assert DueTo(s, c, connection) + [] == DueTo(s, c, connection);
    } else {
      var next, rest := Step(s, actions[0]), actions[1..];
      assert !Reconfigures(rest, c) by {
        assert forall i :: 0 <= i < |rest| ==> rest[i] == actions[i + 1];
      }
      assert !(actions[0].Configure? && actions[0].c == c);
      StepSound(s, actions[0]);
      assert c in next.connections by { StaysUntil(s, actions, c); }
      hide Reconfigures, Sound;
      StepDue(s, actions[0], c);
      RunDue(next, rest, c);
      AllWantedConcat(connection, Aimed(s, actions[0], c), AllAimed(next, rest, c));
    }
  }

  lemma IdleDue(s: State, c: ConnectionId, connection: Connection)
    requires !Busy(s)
    ensures DueTo(s, c, connection) == EnteredFor(s, c)
  {
    hide EnteredFor;
  }

  /** End to end: whatever is routed while a connection keeps its settings and its place in the table
      enters its queue, in order, filtered for it, and nothing else does. */
  lemma RoutedIsDelivered(before: seq<Action>, actions: seq<Action>, c: ConnectionId)
    requires var s := Run(EMPTY, before); c in s.connections && !Busy(s)
    requires var r := Run(Run(EMPTY, before), actions); c in r.connections && !Busy(r)
    requires !Reconfigures(actions, c)
    ensures var s := Run(EMPTY, before);
            EnteredFor(Run(s, actions), c) ==
            EnteredFor(s, c) + AllWanted(s.connections[c], AllAimed(s, actions, c))
  {
    var s := Run(EMPTY, before);
    EmptyIsGapless(c);
    RunGapless(EMPTY, before, c, []);
    hide *;
    IdleDue(s, c, s.connections[c]);
    IdleDue(Run(s, actions), c, s.connections[c]);
    RunDue(s, actions, c);
  }

  /** A delivery removes a connection exactly when a message is meant for it or waits for it and its
      queue refuses: the writer is gone, or the queue is full and the connection may be dropped. */
  lemma RemovedIffRefused(s: State, c: ConnectionId)
    requires Sound(s) && c in s.connections
    ensures c !in Step(s, Deliver).connections <==>
            && Meant(s, Deliver, c) + WaitingFor(s, c) != []
            && (!s.channels[c].open || (s.connections[c].canDisconnect && Full(s.channels[c])))
  {
    hide Filter, Skips;
  }

  /** A connection is in the table after a step exactly when it is opened by it, or was there before and was neither
      closed, nor disconnected with all others, nor refused a message. */
  lemma InTableIff(s: State, action: Action, c: ConnectionId)
    requires Sound(s)
    ensures c in Step(s, action).connections <==>
            || (action.Open? && action.c == c && c !in s.channels && !Busy(s))
            || (c in s.connections
                && !(action == Close(c) && !Busy(s))
                && !(action == DisconnectAll && !Busy(s))
                && !(action == Deliver && Meant(s, Deliver, c) + WaitingFor(s, c) != []
                     && (!s.channels[c].open || (s.connections[c].canDisconnect && Full(s.channels[c])))))
  {
    if c in s.connections && action.Deliver? {
      RemovedIffRefused(s, c);
    }
    StepTable(s, action, c);
    hide Filter, Skips, Lists, Targets, WorkFor, Meant, Full;
  }

  /** Sending to one connection touches no other one. */
  lemma SendTouchesOnly(s: State, c: ConnectionId, message: Message, other: ConnectionId)
    requires other != c
    ensures var r := Send(s, c, message);
            && (other in r.connections <==> other in s.connections)
            && (other in s.connections ==> r.connections[other] == s.connections[other])
            && (other in r.channels <==> other in s.channels)
            && (other in s.channels ==> r.channels[other] == s.channels[other])
            && r.work == s.work
  {
    hide Filter, Skips, Put;
  }

  // ---------- Capabilities over whole runs ----------

  predicate NeverExperimental(actions: seq<Action>, c: ConnectionId) {
    forall i :: 0 <= i < |actions| && actions[i].Configure? && actions[i].c == c ==> !actions[i].experimental
  }

  predicate Stripped(message: Message) {
    message.CommandApprovalRequest? ==> message.additionalPermissions.None?
  }

  lemma StepExperimental(s: State, action: Action, c: ConnectionId)
    requires Sound(s)
    requires c in s.connections ==> !s.connections[c].experimental
    requires action.Configure? && action.c == c ==> !action.experimental
    ensures c in Step(s, action).connections ==> !Step(s, action).connections[c].experimental
  {
    hide Filter, Skips, Lists, Targets, WorkFor;
  }

  lemma {:induction false} MeantIsStripped(s: State, actions: seq<Action>, c: ConnectionId)
    requires Sound(s) && NeverExperimental(actions, c)
    requires c in s.connections ==> !s.connections[c].experimental
    ensures forall m :: m in AllMeant(s, actions, c) ==> Stripped(m)
    decreases |actions|
  {
    if actions == [] {
    } else {
      var next, rest := Step(s, actions[0]), actions[1..];
      assert NeverExperimental(rest, c) by {
        assert forall i :: 0 <= i < |rest| ==> rest[i] == actions[i + 1];
      }
      StepSound(s, actions[0]);
      StepExperimental(s, actions[0], c);
      assert forall m :: m in Meant(s, actions[0], c) ==> Stripped(m);
      hide Step, Meant, NeverExperimental, Stripped, Sound;
      MeantIsStripped(next, rest, c);
    }
  }

  lemma InPrefix(a: seq<Message>, b: seq<Message>, m: Message)
    requires a <= b && m in a
    ensures m in b
  {
    var i :| 0 <= i < |a| && a[i] == m;
    assert b[i] == m;
  }

  /** A client that never had the experimental API never finds experimental fields in its queue. */
  lemma ExperimentalFieldsNeverEnter(actions: seq<Action>, c: ConnectionId, message: Message)
    requires NeverExperimental(actions, c)
    requires message in EnteredFor(Run(EMPTY, actions), c)
    ensures Stripped(message)
  {
    EmptyIsGapless(c);
    MeantIsStripped(EMPTY, actions, c);
    DeliveryHasNoGaps(actions, c);
    hide EnteredFor, Stripped, AllMeant, Step;
    InPrefix(EnteredFor(Run(EMPTY, actions), c), AllMeant(EMPTY, actions, c), message);
  }

  predicate KeepsOptOut(actions: seq<Action>, c: ConnectionId, methodName: string) {
    forall i :: 0 <= i < |actions| && actions[i].Configure? && actions[i].c == c ==> methodName in actions[i].optedOut
  }

  lemma StepOptOut(s: State, action: Action, c: ConnectionId, methodName: string)
    requires Sound(s) && c in s.channels
    requires c in s.connections ==> methodName in s.connections[c].optedOut
    requires action.Configure? && action.c == c ==> methodName in action.optedOut
    ensures c in Step(s, action).channels
    ensures c in Step(s, action).connections ==> methodName in Step(s, action).connections[c].optedOut
  {
    hide Filter, Skips, Lists, Targets, WorkFor;
  }

  lemma {:induction false} MeantIsOptedIn(s: State, actions: seq<Action>, c: ConnectionId, methodName: string)
    requires Sound(s) && KeepsOptOut(actions, c, methodName) && c in s.channels
    requires c in s.connections ==> methodName in s.connections[c].optedOut
    ensures forall m :: m in AllMeant(s, actions, c) ==> !(m.Notification? && m.methodName == methodName)
    decreases |actions|
  {
    if actions == [] {
    } else {
      var next, rest := Step(s, actions[0]), actions[1..];
      assert KeepsOptOut(rest, c, methodName) by {
        assert forall i :: 0 <= i < |rest| ==> rest[i] == actions[i + 1];
      }
      StepSound(s, actions[0]);
      StepOptOut(s, actions[0], c, methodName);
      assert forall m :: m in Meant(s, actions[0], c) ==> !(m.Notification? && m.methodName == methodName);
      hide Step, Meant, KeepsOptOut, Sound;
      MeantIsOptedIn(next, rest, c, methodName);
    }
  }

  lemma PrefixOfPrefix(a: seq<Message>, b: seq<Message>, c: seq<Message>)
    requires a <= b && b <= c
    ensures a <= c
  {
  }

  lemma {:induction false} EnteredGrows(s: State, actions: seq<Action>, c: ConnectionId)
    requires Sound(s)
    ensures EnteredFor(s, c) <= EnteredFor(Run(s, actions), c)
    decreases |actions|
  {
    if actions == [] {
    } else {
      StepSound(s, actions[0]);
      StepEntered(s, actions[0], c);
      hide Step, EnteredFor, Sound;
      EnteredGrows(Step(s, actions[0]), actions[1..], c);
      PrefixOfPrefix(EnteredFor(s, c), EnteredFor(Step(s, actions[0]), c), EnteredFor(Run(s, actions), c));
    }
  }

  /** Once a client has opted out of a notification, and as long as it does not take that back, none
      enters its queue that was not waiting already. */
  lemma OptedOutNeverEnters(before: seq<Action>, after: seq<Action>, c: ConnectionId, methodName: string)
    requires var s := Run(EMPTY, before);
             c in s.connections && methodName in s.connections[c].optedOut && WaitingFor(s, c) == []
    requires KeepsOptOut(after, c, methodName)
    ensures var s := Run(EMPTY, before);
            var old', new' := EnteredFor(s, c), EnteredFor(Run(s, after), c);
            old' <= new' && forall m :: m in new'[|old'|..] ==> !(m.Notification? && m.methodName == methodName)
  {
    var s := Run(EMPTY, before);
    EmptyIsGapless(c);
    RunGapless(EMPTY, before, c, []);
    assert GaplessFor(s, c, EnteredFor(s, c));
    RunGapless(s, after, c, EnteredFor(s, c));
    MeantIsOptedIn(s, after, c, methodName);
    EnteredGrows(s, after, c);
    hide Step, EnteredFor, KeepsOptOut, AllMeant;
    var meant := AllMeant(s, after, c);
    var old', new' := EnteredFor(s, c), EnteredFor(Run(s, after), c);
    assert new' <= old' + meant;
    forall m | m in new'[|old'|..]
      ensures m in meant
    {
      var i :| 0 <= i < |new'| - |old'| && new'[|old'|..][i] == m;
      assert (old' + meant)[|old'| + i] == m;
    }
  }

  // ---------- Broadcasts before initialization ----------

  /** What is routed to `c` by name. */
  function Direct(s: State, actions: seq<Action>, c: ConnectionId): seq<Message>
    decreases |actions|
  {
    if actions == [] then []
    else
      (if actions[0].Route? && !Busy(s) && actions[0].envelope.ToConnection? && actions[0].envelope.c == c
       then [actions[0].envelope.message] else [])
      + Direct(Step(s, actions[0]), actions[1..], c)
  }

  predicate NeverInitialized(actions: seq<Action>, c: ConnectionId) {
    forall i :: 0 <= i < |actions| && actions[i].Configure? && actions[i].c == c ==> !actions[i].initialized
  }

  lemma StepInitialized(s: State, action: Action, c: ConnectionId)
    requires Sound(s)
    requires c in s.connections ==> !s.connections[c].initialized
    requires action.Configure? && action.c == c ==> !action.initialized
    ensures c in Step(s, action).connections ==> !Step(s, action).connections[c].initialized
  {
    hide Filter, Skips, Lists, Targets, WorkFor;
  }

  lemma {:induction false} AimedIsDirect(s: State, actions: seq<Action>, c: ConnectionId)
    requires Sound(s) && NeverInitialized(actions, c)
    requires c in s.connections ==> !s.connections[c].initialized
    ensures AllAimed(s, actions, c) == Direct(s, actions, c)
    decreases |actions|
  {
    if actions == [] {
    } else {
      var next, rest := Step(s, actions[0]), actions[1..];
      assert NeverInitialized(rest, c) by {
        assert forall i :: 0 <= i < |rest| ==> rest[i] == actions[i + 1];
      }
      StepSound(s, actions[0]);
      StepInitialized(s, actions[0], c);
      hide Step, NeverInitialized, Sound, Lists, Skips;
      AimedIsDirect(next, rest, c);
    }
  }

  /** The message itself, or without its experimental fields. */
  predicate IsFormOf(message: Message, original: Message) {
    message == original || (original.CommandApprovalRequest? && message == original.(additionalPermissions := None))
  }

  /** Each message meant for `c` is one that was taken up for it, perhaps stripped. */
  lemma {:induction false} MeantWasAttempted(s: State, actions: seq<Action>, c: ConnectionId)
    ensures forall m :: m in AllMeant(s, actions, c) ==>
              exists d :: d in AllAttempted(s, actions, c) && IsFormOf(m, d)
    decreases |actions|
  {
    if actions == [] {
    } else {
      var next, rest := Step(s, actions[0]), actions[1..];
      hide Step;
      MeantWasAttempted(next, rest, c);
      var meant, attempted := Meant(s, actions[0], c), Attempted(s, actions[0], c);
      forall m | m in meant
        ensures attempted != [] && IsFormOf(m, attempted[0])
      {
      }
      hide Meant, Attempted, IsFormOf;
      forall m | m in AllMeant(s, actions, c)
        ensures exists d :: d in AllAttempted(s, actions, c) && IsFormOf(m, d)
      {
        if m in meant {
          assert attempted[0] in AllAttempted(s, actions, c);
        } else {
          assert m in AllMeant(next, rest, c);
          var d :| d in AllAttempted(next, rest, c) && IsFormOf(m, d);
          assert d in AllAttempted(s, actions, c);
        }
      }
    }
  }

  lemma {:induction false} AimedAppend(s: State, actions: seq<Action>, after: seq<Action>, c: ConnectionId)
    ensures AllAimed(s, actions + after, c) == AllAimed(s, actions, c) + AllAimed(Run(s, actions), after, c)
    decreases |actions|
  {
    hide Step, Aimed;
    if actions == [] {
      assert actions + after == after;
    } else {
      assert (actions + after)[1..] == actions[1..] + after;
      AimedAppend(Step(s, actions[0]), actions[1..], after, c);
    }
  }

  /** Until a connection is initialized, all that enters its queue was routed to it by name: no broadcast
      does, not even later. */
  lemma NoBroadcastBeforeInitialization(actions: seq<Action>, c: ConnectionId)
    requires NeverInitialized(actions, c)
    ensures AllAimed(EMPTY, actions, c) == Direct(EMPTY, actions, c)
    ensures forall after :: AllAimed(EMPTY, actions + after, c) ==
                            Direct(EMPTY, actions, c) + AllAimed(Run(EMPTY, actions), after, c)
    ensures forall m :: m in EnteredFor(Run(EMPTY, actions), c) ==>
              exists d :: d in Direct(EMPTY, actions, c) && IsFormOf(m, d)
  {
    forall after
      ensures AllAimed(EMPTY, actions + after, c) ==
              AllAimed(EMPTY, actions, c) + AllAimed(Run(EMPTY, actions), after, c)
    {
      AimedAppend(EMPTY, actions, after, c);
    }
    EmptyIsGapless(c);
    AimedIsDirect(EMPTY, actions, c);
    MeantWasAttempted(EMPTY, actions, c);
    AttemptsAreAimed(actions, c);
    DeliveryHasNoGaps(actions, c);
    hide Step, EnteredFor, AllMeant, AllAttempted, AllAimed, Direct, IsFormOf, WorkOf;
    var attempted, left, direct := AllAttempted(EMPTY, actions, c), WorkOf(Run(EMPTY, actions).work, c),
      Direct(EMPTY, actions, c);
    forall m | m in EnteredFor(Run(EMPTY, actions), c)
      ensures exists d :: d in direct && IsFormOf(m, d)
    {
      InPrefix(EnteredFor(Run(EMPTY, actions), c), AllMeant(EMPTY, actions, c), m);
      var d :| d in attempted && IsFormOf(m, d);
      assert d in attempted + left;
    }
  }
}
