/** What a client finds in its queue, in terms of what was routed and of the settings it last asked for. */
module TransportRouting {
  import opened Wrappers
  import opened Ids
  import opened Transport
  import opened TransportDelivery

  // ---------- What is routed ----------

  predicate OptedOut(connection: Connection, message: Message) {
    message.Notification? && message.methodName in connection.optedOut
  }

  /** A broadcast is sent, in some order and once each, to the connections that are initialized and did not
      opt out of it. */
  ghost predicate IsBroadcastOrder(s: State, message: Message, order: seq<ConnectionId>) {
    && (forall i, j :: 0 <= i < j < |order| ==> order[i] != order[j])
    && (forall d :: d in order <==>
          d in s.connections && s.connections[d].initialized && !OptedOut(s.connections[d], message))
  }

  /** What a step routes to `c`, by name or, once `c` is initialized, by broadcast. */
  ghost function RoutedBy(s: State, action: Action, c: ConnectionId): seq<Message> {
    match action
    case Route(ToConnection(d, message), _) => if d == c && !Busy(s) then [message] else []
    case Route(Broadcast(message), order) =>
      if IsBroadcastOrder(s, message, order) && !Busy(s) && c in s.connections && s.connections[c].initialized
      then [message] else []
    case _ => []
  }

  ghost function RoutedTo(s: State, actions: seq<Action>, c: ConnectionId): seq<Message>
    decreases |actions|
  {
    if actions == [] then [] else RoutedBy(s, actions[0], c) + RoutedTo(Step(s, actions[0]), actions[1..], c)
  }

  // ---------- What of it enters ----------

  /** A message stays as it is, unless it is a command approval with additional permissions for a client
      without the experimental API, which loses them. */
  predicate AppearsAs(connection: Connection, routed: Message, entered: Message) {
    && (entered != routed <==>
          routed.CommandApprovalRequest? && routed.additionalPermissions.Some? && !connection.experimental)
    && (entered != routed ==> entered == CommandApprovalRequest(routed.payload, None))
  }

  predicate Increasing(at: seq<nat>) {
    forall k, l :: 0 <= k < l < |at| ==> at[k] < at[l]
  }

  /** `at` lists the positions, from `from` on, of what is not opted out, and there stands what enters. */
  predicate EntersAt(connection: Connection, routed: seq<Message>, entered: seq<Message>, at: seq<nat>, from: nat) {
    && |at| == |entered| && Increasing(at)
    && (forall k :: 0 <= k < |at| ==> from <= at[k] < |routed|)
    && (forall k :: 0 <= k < |at| ==> AppearsAs(connection, routed[at[k]], entered[k]))
    && (forall i :: from <= i < |routed| ==> (i in at <==> !OptedOut(connection, routed[i])))
  }

  /** All that was routed enters, in order, but for the notifications that the client opted out of. */
  ghost predicate Reaches(connection: Connection, routed: seq<Message>, entered: seq<Message>) {
    exists at: seq<nat> :: EntersAt(connection, routed, entered, at, 0)
  }

  function Shifted(at: seq<nat>): (shifted: seq<nat>)
    ensures |shifted| == |at| && forall k :: 0 <= k < |at| ==> shifted[k] == at[k] + 1
  {
    seq(|at|, k requires 0 <= k < |at| => at[k] + 1)
  }

  lemma ShiftedIn(at: seq<nat>, i: nat)
    ensures i in Shifted(at) <==> i > 0 && i - 1 in at
  {
    if i > 0 && i - 1 in at {
      var k :| 0 <= k < |at| && at[k] == i - 1;
      assert Shifted(at)[k] == i;
    }
  }

  lemma WantedAppears(connection: Connection, message: Message)
    ensures Wanted(connection, message) == [] <==> OptedOut(connection, message)
    ensures Wanted(connection, message) != [] ==>
              |Wanted(connection, message)| == 1 && AppearsAs(connection, message, Wanted(connection, message)[0])
  {
  }

  lemma EntersShifted(connection: Connection, message: Message, rest: seq<Message>, entered: seq<Message>, at: seq<nat>)
    requires EntersAt(connection, rest, entered, at, 0)
    ensures EntersAt(connection, [message] + rest, entered, Shifted(at), 1)
  {
    hide AppearsAs, OptedOut;
    var routed, shifted := [message] + rest, Shifted(at);
    assert forall k :: 0 <= k < |at| ==> shifted[k] == at[k] + 1 && routed[shifted[k]] == rest[at[k]];
    hide Shifted;
    forall i | 1 <= i < |routed|
      ensures i in shifted <==> !OptedOut(connection, routed[i])
    {
      ShiftedIn(at, i);
      assert routed[i] == rest[i - 1];
    }
  }

  lemma IncreasingFromZero(at: seq<nat>)
    requires Increasing(at) && forall k :: 0 <= k < |at| ==> 1 <= at[k]
    ensures Increasing([0] + at)
  {
  }

  lemma EntersFirst(connection: Connection, routed: seq<Message>, first: Message, entered: seq<Message>, at: seq<nat>)
    requires routed != [] && EntersAt(connection, routed, entered, at, 1)
    requires !OptedOut(connection, routed[0]) && AppearsAs(connection, routed[0], first)
    ensures EntersAt(connection, routed, [first] + entered, [0] + at, 0)
  {
    hide AppearsAs, OptedOut, Increasing;
    IncreasingFromZero(at);
    var all, after := [0] + at, [first] + entered;
    forall k | 0 <= k < |all|
      ensures 0 <= all[k] < |routed| && AppearsAs(connection, routed[all[k]], after[k])
    {
      if k > 0 {
        assert all[k] == at[k - 1] && after[k] == entered[k - 1];
      }
    }
    assert forall i :: i in all <==> i == 0 || i in at;
  }

  lemma EntersCons(connection: Connection, message: Message, rest: seq<Message>, entered: seq<Message>, at: seq<nat>)
    requires EntersAt(connection, rest, entered, at, 0)
    ensures Reaches(connection, [message] + rest, Wanted(connection, message) + entered)
  {
    WantedAppears(connection, message);
    EntersShifted(connection, message, rest, entered, at);
    hide Wanted, AppearsAs, OptedOut, Increasing;
    var routed, wanted, shifted := [message] + rest, Wanted(connection, message), Shifted(at);
    if wanted == [] {
      assert 0 !in shifted;
      assert EntersAt(connection, routed, entered, shifted, 0);
      assert wanted + entered == entered;
    } else {
      EntersFirst(connection, routed, wanted[0], entered, shifted);
      assert wanted == [wanted[0]];
    }
  }

  lemma {:induction false} WantedReaches(connection: Connection, routed: seq<Message>)
    ensures Reaches(connection, routed, AllWanted(connection, routed))
  {
    if routed == [] {
      var none: seq<nat> := [];
      assert EntersAt(connection, [], [], none, 0);
    } else {
      WantedReaches(connection, routed[1..]);
      var at: seq<nat> :| EntersAt(connection, routed[1..], AllWanted(connection, routed[1..]), at, 0);
      hide EntersAt, Wanted;
      EntersCons(connection, routed[0], routed[1..], AllWanted(connection, routed[1..]), at);
      assert [routed[0]] + routed[1..] == routed;
    }
  }

  // ---------- Aimed and routed ----------

  lemma BroadcastOrderIff(s: State, message: Message, order: seq<ConnectionId>)
    ensures IsBroadcastOrder(s, message, order) <==> Lists(order, Targets(s, message))
  {
  }

  /** A broadcast that is routed but not aimed at a connection is one that it opted out of. */
  lemma AimedIsRouted(s: State, action: Action, c: ConnectionId)
    requires c in s.connections
    ensures AllWanted(s.connections[c], Aimed(s, action, c)) == AllWanted(s.connections[c], RoutedBy(s, action, c))
  {
    if action.Route? && action.envelope.Broadcast? {
      var message := action.envelope.message;
      BroadcastOrderIff(s, message, action.order);
      WantedAppears(s.connections[c], message);
      assert [message][1..] == [];
      hide IsBroadcastOrder, Lists, Wanted;
      assert Wanted(s.connections[c], message) == [] ==> AllWanted(s.connections[c], [message]) == [];
    }
  }

  lemma {:induction false} AllAimedIsRouted(s: State, actions: seq<Action>, c: ConnectionId)
    requires Sound(s) && c in s.connections && c in Run(s, actions).connections && !Reconfigures(actions, c)
    ensures AllWanted(s.connections[c], AllAimed(s, actions, c)) == AllWanted(s.connections[c], RoutedTo(s, actions, c))
    decreases |actions|
  {
    hide Step, Aimed, RoutedBy, Wanted;
    if actions == [] {
    } else {
      var next, rest := Step(s, actions[0]), actions[1..];
      assert !Reconfigures(rest, c) by {
        assert forall i :: 0 <= i < |rest| ==> rest[i] == actions[i + 1];
      }
      assert !(actions[0].Configure? && actions[0].c == c);
      StepSound(s, actions[0]);
      assert c in next.connections by { StaysUntil(s, actions, c); }
      StepKeepsSettings(s, actions[0], c);
      AimedIsRouted(s, actions[0], c);
      hide Reconfigures, Sound;
      AllAimedIsRouted(next, rest, c);
      AllWantedConcat(s.connections[c], Aimed(s, actions[0], c), AllAimed(next, rest, c));
      AllWantedConcat(s.connections[c], RoutedBy(s, actions[0], c), RoutedTo(next, rest, c));
    }
  }

  // ---------- End to end ----------

  /** What entered the queue of `c` between two moments at which the router is between envelopes. */
  function NewlyEntered(s: State, r: State, c: ConnectionId): (entered: seq<Message>)
    requires EnteredFor(s, c) <= EnteredFor(r, c)
  {
    EnteredFor(r, c)[|EnteredFor(s, c)|..]
  }

  /** While a connection keeps its settings and its place in the table, what is routed to it enters its queue in
      order and nothing else does: the notifications it opted out of are left out, and the additional
      permissions of a command approval reach it exactly when it has the experimental API. */
  lemma RoutedReaches(before: seq<Action>, actions: seq<Action>, c: ConnectionId)
    requires var s := Run(EMPTY, before); c in s.connections && !Busy(s)
    requires var r := Run(Run(EMPTY, before), actions); c in r.connections && !Busy(r)
    requires !Reconfigures(actions, c)
    ensures var s := Run(EMPTY, before);
            var r := Run(s, actions);
            && EnteredFor(s, c) <= EnteredFor(r, c)
            && Reaches(s.connections[c], RoutedTo(s, actions, c), NewlyEntered(s, r, c))
  {
    var s := Run(EMPTY, before);
    EmptyIsGapless(c);
    RunGapless(EMPTY, before, c, []);
    hide Run, Busy, EnteredFor, Reaches, AllWanted, AllAimed, RoutedTo, Reconfigures;
    RoutedIsDelivered(before, actions, c);
    AllAimedIsRouted(s, actions, c);
    WantedReaches(s.connections[c], RoutedTo(s, actions, c));
    assert NewlyEntered(s, Run(s, actions), c) == AllWanted(s.connections[c], RoutedTo(s, actions, c));
  }

  /** From a configuration on, the settings are those that were asked for. */
  lemma ConfiguredReaches(before: seq<Action>, initialized: bool, experimental: bool, optedOut: set<string>,
                          actions: seq<Action>, c: ConnectionId)
    requires var s := Run(EMPTY, before); c in s.connections && !Busy(s)
    requires var r := Run(Step(Run(EMPTY, before), Configure(c, initialized, experimental, optedOut)), actions);
             c in r.connections && !Busy(r)
    requires !Reconfigures(actions, c)
    ensures var s := Step(Run(EMPTY, before), Configure(c, initialized, experimental, optedOut));
            var r := Run(s, actions);
            && EnteredFor(s, c) <= EnteredFor(r, c)
            && exists canDisconnect ::
                 Reaches(Connection(initialized, experimental, optedOut, canDisconnect), RoutedTo(s, actions, c),
                         NewlyEntered(s, r, c))
  {
    var configure := Configure(c, initialized, experimental, optedOut);
    var canDisconnect := Run(EMPTY, before).connections[c].canDisconnect;
    RunSnoc(EMPTY, before, configure);
    var s := Step(Run(EMPTY, before), configure);
    assert !Busy(s) && c in s.connections;
    assert s.connections[c] == Connection(initialized, experimental, optedOut, canDisconnect);
    hide Run, Step, Busy, EnteredFor, Reaches, RoutedTo, Reconfigures;
    RoutedReaches(before + [configure], actions, c);
  }

  /** Until then a connection gets what is routed to it by name, without additional permissions. */
  lemma OpenedReaches(before: seq<Action>, canDisconnect: bool, actions: seq<Action>, c: ConnectionId)
    requires var s := Run(EMPTY, before); c !in s.channels && !Busy(s)
    requires var r := Run(Step(Run(EMPTY, before), Open(c, canDisconnect)), actions); c in r.connections && !Busy(r)
    requires !Reconfigures(actions, c)
    ensures var s := Step(Run(EMPTY, before), Open(c, canDisconnect));
            var r := Run(s, actions);
            && EnteredFor(s, c) == []
            && Reaches(Connection(false, false, {}, canDisconnect), RoutedTo(s, actions, c), EnteredFor(r, c))
  {
    var open := Open(c, canDisconnect);
    RunSnoc(EMPTY, before, open);
    var s := Step(Run(EMPTY, before), open);
    assert !Busy(s) && c in s.connections;
    assert s.connections[c] == Connection(false, false, {}, canDisconnect);
    assert s.channels[c] == Channel([], [], true);
    NothingEntered();
    hide Run, Step, Busy, Reaches, RoutedTo, Reconfigures, RoutedOf, Entered;
    RoutedReaches(before + [open], actions, c);
    assert NewlyEntered(s, Run(s, actions), c) == EnteredFor(Run(s, actions), c);
  }
}
