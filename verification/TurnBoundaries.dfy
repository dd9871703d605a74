/** Turn transitions and the tasks that wait for a client's answer: when a turn starts, completes or is
    aborted, the thread's requests are resolved, and no request ever leads to more than one submitted
    operation. */
module TurnBoundaries {
  import opened Wrappers
  import opened Ids
  import opened Outgoing

  // ---------- Requests, answers and operations ----------

  datatype ReviewDecision =
    | Approved
    | ApprovedForSession
    | ApprovedExecpolicyAmendment(rule: string)
    | NetworkPolicyAmendment(host: string, allow: bool)
    | Denied
    | Abort

  datatype FileChangeDecision = AcceptChange | AcceptChangeForSession | DeclineChange | CancelChange

  datatype CommandDecision =
    | AcceptCommand
    | AcceptCommandForSession
    | AcceptWithExecpolicyAmendment(rule: string)
    | ApplyNetworkPolicyAmendment(host: string, allow: bool)
    | DeclineCommand
    | CancelCommand

  /** What a request asks for, with the ids its handler needs to answer the agent. */
  datatype Ask =
    | PatchApprovalV1(callId: string)
    | ExecApprovalV1(callId: string, turnId: string)
    | FileChangeApproval(itemId: string)
    | CommandApproval(approvalId: Option<string>, itemId: string, turnId: string)
    | UserInput(turnId: string)
    | ToolCall(callId: string)

  datatype Op =
    | PatchApprovalOp(id: string, decision: ReviewDecision)
    | ExecApprovalOp(id: string, turnId: string, decision: ReviewDecision)
    | UserInputAnswerOp(id: string, answers: map<string, seq<string>>)
    | ToolResponseOp(id: string, text: string, success: bool)

  /** Deserialization of a client's JSON result, for each type a handler expects. */
  datatype Decoders = Decoders(
    review: string -> Option<ReviewDecision>,
    fileChange: string -> Option<FileChangeDecision>,
    command: string -> Option<CommandDecision>,
    userInput: string -> Option<map<string, seq<string>>>,
    tool: string -> Option<(string, bool)>)

  // ---------- Handlers ----------

  const TURN_TRANSITION := RpcError(-32603, "client request resolved because the turn state was changed",
                                    Some("turnTransition"))

  /** `is_turn_transition_server_request_error`, which looks at the reason in the error's data alone. */
  predicate HasReason(error: RpcError) {
    error.reason == Some("turnTransition")
  }

  /** The callback receives an error with that reason, be it from a turn transition or from the client. */
  predicate CarriesReason(outcome: Outcome<string>) {
    || (outcome.Errored? && HasReason(outcome.error))
    || (outcome.Cancelled? && outcome.reason.Some? && HasReason(outcome.reason.value))
  }

  function OrDefault<T>(decoded: Option<T>, default: T): T {
    if decoded.Some? then decoded.value else default
  }

  function FileChangeReview(decision: FileChangeDecision): ReviewDecision {
    match decision
    case AcceptChange => Approved
    case AcceptChangeForSession => ApprovedForSession
    case DeclineChange => Denied
    case CancelChange => Abort
  }

  function CommandReview(decision: CommandDecision): ReviewDecision {
    match decision
    case AcceptCommand => Approved
    case AcceptCommandForSession => ApprovedForSession
    case AcceptWithExecpolicyAmendment(rule) => ApprovedExecpolicyAmendment(rule)
    case ApplyNetworkPolicyAmendment(host, allow) => NetworkPolicyAmendment(host, allow)
    case DeclineCommand => Denied
    case CancelCommand => Abort
  }

  /** The operation a handler submits once its callback is resolved, if any. A malformed answer counts
      as a refusal; a failed request counts as one too, except that the older command approval then
      submits nothing. */
  function Handle(d: Decoders, ask: Ask, outcome: Outcome<string>): (op: Option<Op>) {
    if CarriesReason(outcome) then None
    else
      var answer := if outcome.Answered? then Some(outcome.answer) else None;
      match ask
      case PatchApprovalV1(callId) =>
        Some(PatchApprovalOp(callId, if answer.Some? then OrDefault(d.review(answer.value), Denied) else Denied))
      case ExecApprovalV1(callId, turnId) =>
        if answer.Some? then Some(ExecApprovalOp(callId, turnId, OrDefault(d.review(answer.value), Denied))) else None
      case FileChangeApproval(itemId) =>
        Some(PatchApprovalOp(itemId,
          if answer.Some? then FileChangeReview(OrDefault(d.fileChange(answer.value), DeclineChange)) else Denied))
      case CommandApproval(approvalId, itemId, turnId) =>
        Some(ExecApprovalOp(OrDefault(approvalId, itemId), turnId,
          if answer.Some? then CommandReview(OrDefault(d.command(answer.value), DeclineCommand)) else Denied))
      case UserInput(turnId) =>
        Some(UserInputAnswerOp(turnId, if answer.Some? then OrDefault(d.userInput(answer.value), map[]) else map[]))
      case ToolCall(callId) =>
        var (text, success) :=
          if answer.Some? then OrDefault(d.tool(answer.value), ("dynamic tool response was invalid", false))
          else ("dynamic tool request failed", false);
        Some(ToolResponseOp(callId, text, success))
  }

  /** A handler stays silent exactly on an error with the reason of a turn transition, whoever sent it, and
      on a failed command approval of the older protocol. */
  lemma SilentIff(d: Decoders, ask: Ask, outcome: Outcome<string>)
    ensures Handle(d, ask, outcome).None? <==>
            CarriesReason(outcome) || (ask.ExecApprovalV1? && !outcome.Answered?)
  {
  }

  /** No handler approves anything unless the client's answer decodes to an approval. */
  predicate Approves(op: Op) {
    (op.PatchApprovalOp? || op.ExecApprovalOp?) && op.decision != Denied && op.decision != Abort
  }

  lemma ApprovalNeedsAnswer(d: Decoders, ask: Ask, outcome: Outcome<string>)
    requires Handle(d, ask, outcome).Some? && Approves(Handle(d, ask, outcome).value)
    ensures outcome.Answered?
    ensures match ask {
              case PatchApprovalV1(_) => d.review(outcome.answer).Some?
              case ExecApprovalV1(_, _) => d.review(outcome.answer).Some?
              case FileChangeApproval(_) =>
                d.fileChange(outcome.answer) in {Some(AcceptChange), Some(AcceptChangeForSession)}
              case CommandApproval(_, _, _) =>
                d.command(outcome.answer).Some?
                && d.command(outcome.answer) !in {Some(DeclineCommand), Some(CancelCommand)}
              case _ => false
            }
  {
  }

  // ---------- The protocol as a state machine ----------

  /** The callback table, what each registered request asks, the handlers still waiting, and the
      operations submitted for each request. */
  datatype World = World(
    sender: State<Ask, string>,
    asks: map<RequestId, Ask>,
    waiting: set<RequestId>,
    ops: map<RequestId, seq<Op>>)

  datatype Event =
    | Sender(action: Action<Ask, string>)
    | TurnChange(threadId: ThreadId)
    | Wake(id: RequestId)

  function Start(): World {
    World(Initial(), map[], {}, map[])
  }

  function Submitted(w: World, id: RequestId): seq<Op> {
    if id in w.ops then w.ops[id] else []
  }

  /** TurnStarted, TurnComplete and TurnAborted all begin by aborting the thread's requests. Registering
      a request spawns its handler; a handler wakes when its callback is resolved, submits at most one
      operation and ends. */
  function Next(d: Decoders, w: World, event: Event): World {
    match event
    case Sender(action) =>
      var registers := action.Register? && action.id in w.sender.unregistered;
      w.(sender := Step(w.sender, action),
         asks := if registers then w.asks[action.id := action.request] else w.asks,
         waiting := if registers then w.waiting + {action.id} else w.waiting)
    case TurnChange(threadId) => w.(sender := Step(w.sender, CancelThread(threadId, Some(TURN_TRANSITION))))
    case Wake(id) =>
      if id in w.waiting && id in w.asks && id in w.sender.outcomes && w.sender.outcomes[id] != [] then
        var op := Handle(d, w.asks[id], w.sender.outcomes[id][0]);
        w.(waiting := w.waiting - {id},
           ops := if op.Some? then w.ops[id := Submitted(w, id) + [op.value]] else w.ops)
      else w
  }

  function Play(d: Decoders, w: World, events: seq<Event>): World
    decreases |events|
  {
    if events == [] then w else Play(d, Next(d, w, events[0]), events[1..])
  }

  // ---------- At most one operation per request ----------

  /** Handlers wait for exactly the requests they have not handled; a handled request has the one
      outcome its handler saw, and exactly the operation that handler chose. */
  ghost predicate Orderly(d: Decoders, w: World) {
    && Accounted(w.sender)
    && w.asks.Keys == w.sender.pending.Keys + w.sender.outcomes.Keys
    && w.sender.pending.Keys <= w.waiting <= w.asks.Keys
    && w.ops.Keys <= w.asks.Keys
    && (forall id :: id in w.waiting ==> Submitted(w, id) == [])
    && (forall id :: id in w.asks.Keys - w.waiting ==>
          && |w.sender.outcomes[id]| == 1
          && Submitted(w, id) == match Handle(d, w.asks[id], w.sender.outcomes[id][0]) {
               case Some(op) => [op]
               case None => []
             })
  }

  lemma SenderStepKeys(s: State<Ask, string>, action: Action<Ask, string>)
    requires Accounted(s)
    ensures var next := Step(s, action);
            var joined := if action.Register? && action.id in s.unregistered then {action.id} else {};
            && next.pending.Keys + next.outcomes.Keys == s.pending.Keys + s.outcomes.Keys + joined
            && next.pending.Keys <= s.pending.Keys + joined
            && (forall id :: id in s.outcomes && id !in s.pending ==>
                  id in next.outcomes && next.outcomes[id] == s.outcomes[id])
  {
    var next := Step(s, action);
    assert forall id :: id in s.outcomes ==> s.outcomes[id] + [] == s.outcomes[id];
  }

  /** What a step of the table does to the rest of the world. */
  lemma SenderKeys(d: Decoders, w: World, action: Action<Ask, string>)
    requires Accounted(w.sender)
    ensures var next := Next(d, w, Sender(action));
            var joined := if action.Register? && action.id in w.sender.unregistered then {action.id} else {};
            && next.asks.Keys == w.asks.Keys + joined && next.waiting == w.waiting + joined && next.ops == w.ops
            && (forall id :: id in w.asks && id !in joined ==> next.asks[id] == w.asks[id])
  {
    hide Accounted, Step, Handle;
  }

  lemma JoinKeepsOrder(d: Decoders, w: World, next: World, joined: set<RequestId>)
    requires Orderly(d, w) && Accounted(next.sender) && joined !! w.asks.Keys
    requires next.asks.Keys == w.asks.Keys + joined && next.waiting == w.waiting + joined && next.ops == w.ops
    requires next.sender.pending.Keys + next.sender.outcomes.Keys ==
             w.sender.pending.Keys + w.sender.outcomes.Keys + joined
    requires next.sender.pending.Keys <= w.sender.pending.Keys + joined
    requires forall id :: id in w.asks && id !in joined ==> next.asks[id] == w.asks[id]
    requires forall id :: id in w.asks && id !in w.waiting ==>
               id in next.sender.outcomes && next.sender.outcomes[id] == w.sender.outcomes[id]
    ensures Orderly(d, next)
  {
    hide Accounted, Handle;
    forall id | id in next.waiting
      ensures Submitted(next, id) == []
    {
      assert id in w.waiting ==> Submitted(w, id) == [];
    }
    forall id | id in next.asks.Keys - next.waiting
      ensures id in w.asks.Keys - w.waiting && Submitted(next, id) == Submitted(w, id)
    {
    }
  }

  lemma JoinedIsNew(s: State<Ask, string>, action: Action<Ask, string>)
    requires Accounted(s)
    ensures action.Register? && action.id in s.unregistered ==>
            action.id !in s.pending && action.id !in s.outcomes
  {
  }

  lemma SenderKeepsOrder(d: Decoders, w: World, action: Action<Ask, string>)
    requires Orderly(d, w) && Step(w.sender, action).count <= TWO_64
    ensures Orderly(d, Next(d, w, Sender(action)))
  {
    var next := Next(d, w, Sender(action));
    var joined := if action.Register? && action.id in w.sender.unregistered then {action.id} else {};
    SenderStepKeys(w.sender, action);
    StepAccounted(w.sender, action);
    SenderKeys(d, w, action);
    JoinedIsNew(w.sender, action);
    assert next.sender == Step(w.sender, action);
    hide Accounted, Step, Handle, Next, Submitted;
    forall id | id in w.asks && id !in w.waiting
      ensures id in next.sender.outcomes && next.sender.outcomes[id] == w.sender.outcomes[id]
    {
      assert id in w.sender.outcomes && id !in w.sender.pending;
    }
    JoinKeepsOrder(d, w, next, joined);
  }

  lemma OneOutcomeEach(s: State<Ask, string>)
    requires Accounted(s)
    ensures forall id :: id in s.outcomes ==> |s.outcomes[id]| == 1
  {
  }

  lemma ResolvedNotPending(s: State<Ask, string>, id: RequestId)
    requires Accounted(s) && id in s.outcomes
    ensures id !in s.pending
  {
  }

  lemma WakeKeepsOrder(d: Decoders, w: World, id: RequestId)
    requires Orderly(d, w)
    ensures Orderly(d, Next(d, w, Wake(id)))
  {
    hide Handle;
    OneOutcomeEach(w.sender);
    hide Accounted;
    var next := Next(d, w, Wake(id));
    if next != w {
      assert id !in w.sender.pending by { ResolvedNotPending(w.sender, id); }
      assert Submitted(w, id) == [];
      forall other | other in next.asks.Keys - next.waiting
        ensures Submitted(next, other) == match Handle(d, next.asks[other], next.sender.outcomes[other][0]) {
                  case Some(op) => [op]
                  case None => []
                }
      {
        if other != id {
          assert Submitted(next, other) == Submitted(w, other);
        }
      }
      forall other | other in next.waiting
        ensures Submitted(next, other) == []
      {
        assert Submitted(w, other) == [];
      }
    }
  }

  lemma NextKeepsOrder(d: Decoders, w: World, event: Event)
    requires Orderly(d, w) && Next(d, w, event).sender.count <= TWO_64
    ensures Orderly(d, Next(d, w, event))
  {
    match event
    case Sender(action) => SenderKeepsOrder(d, w, action);
    case TurnChange(threadId) =>
      var abort := CancelThread(threadId, Some(TURN_TRANSITION));
      SenderKeepsOrder(d, w, abort);
      assert Next(d, w, event) == Next(d, w, Sender(abort));
    case Wake(id) => WakeKeepsOrder(d, w, id);
  }

  lemma {:induction false} PlayCounts(d: Decoders, w: World, events: seq<Event>)
    ensures w.sender.count <= Play(d, w, events).sender.count
    decreases |events|
  {
    if events == [] {
    } else {
      var next := Next(d, w, events[0]);
      assert w.sender.count <= next.sender.count;
      PlayCounts(d, next, events[1..]);
    }
  }

  lemma {:induction false} PlayKeepsOrder(d: Decoders, w: World, events: seq<Event>)
    requires Orderly(d, w) && Play(d, w, events).sender.count <= TWO_64
    ensures Orderly(d, Play(d, w, events))
    decreases |events|
  {
    hide Orderly, Next;
    if events == [] {
    } else {
      PlayCounts(d, Next(d, w, events[0]), events[1..]);
      NextKeepsOrder(d, w, events[0]);
      PlayKeepsOrder(d, Next(d, w, events[0]), events[1..]);
    }
  }

  lemma StartIsOrderly(d: Decoders)
    ensures Orderly(d, Start())
  {
    assert Accounted(Start().sender);
  }

  /** Over every run: a request leads to at most one submitted operation, to none before it is resolved
      and to none when an error with the reason of a turn transition resolved it; once its handler has run,
      the operation is the one that its single outcome calls for. */
  lemma AtMostOneOperation(d: Decoders, events: seq<Event>, id: RequestId)
    requires Play(d, Start(), events).sender.count <= TWO_64
    ensures var w := Play(d, Start(), events);
            && |Submitted(w, id)| <= 1
            && (id !in w.sender.outcomes ==> Submitted(w, id) == [])
            && (id in w.sender.outcomes ==> id in w.asks && |w.sender.outcomes[id]| == 1)
            && (id in w.sender.outcomes && CarriesReason(w.sender.outcomes[id][0]) ==> Submitted(w, id) == [])
            && (id in w.sender.outcomes && id !in w.waiting ==>
                  Submitted(w, id) == match Handle(d, w.asks[id], w.sender.outcomes[id][0]) {
                    case Some(op) => [op]
                    case None => []
                  })
  {
    StartIsOrderly(d);
    PlayKeepsOrder(d, Start(), events);
    var w := Play(d, Start(), events);
    OneOutcomeEach(w.sender);
    assert id !in w.asks ==> Submitted(w, id) == [];
  }

  // ---------- Turn boundaries are clean ----------

  /** Right after a turn transition no request of the thread is pending, each one that was has been
      resolved as a transition, and the requests of every other thread are as before. */
  lemma TransitionIsClean(d: Decoders, w: World, threadId: ThreadId)
    requires Orderly(d, w)
    ensures var next := Next(d, w, TurnChange(threadId));
            && OfThread(next.sender.pending, threadId) == {}
            && (forall id :: id in w.sender.pending && w.sender.pending[id].thread != Some(threadId) ==>
                  id in next.sender.pending && next.sender.pending[id] == w.sender.pending[id])
            && (forall id :: id in OfThread(w.sender.pending, threadId) ==>
                  id in next.sender.outcomes && next.sender.outcomes[id] == [Cancelled(Some(TURN_TRANSITION))])
            && next.ops == w.ops && next.waiting == w.waiting
  {
    CancelThreadIsExact(w.sender, threadId, Some(TURN_TRANSITION));
    forall id | id in OfThread(w.sender.pending, threadId)
      ensures id !in w.sender.outcomes
    {
    }
  }

  lemma {:induction false} OutcomesStay(d: Decoders, w: World, events: seq<Event>, id: RequestId)
    requires Orderly(d, w) && Play(d, w, events).sender.count <= TWO_64
    requires id in w.sender.outcomes
    ensures id in Play(d, w, events).sender.outcomes
    ensures Play(d, w, events).sender.outcomes[id] == w.sender.outcomes[id]
    decreases |events|
  {
    if events == [] {
    } else {
      var next := Next(d, w, events[0]);
      PlayCounts(d, next, events[1..]);
      NextKeepsOrder(d, w, events[0]);
      ResolvedNotPending(w.sender, id);
      match events[0] {
        case Sender(action) => SenderStepKeys(w.sender, action);
        case TurnChange(threadId) => SenderStepKeys(w.sender, CancelThread(threadId, Some(TURN_TRANSITION)));
        case Wake(_) =>
      }
      assert id in next.sender.outcomes && next.sender.outcomes[id] == w.sender.outcomes[id];
      hide Orderly, Next;
      OutcomesStay(d, next, events[1..], id);
    }
  }

  lemma SilentOnceHandled(d: Decoders, w: World, id: RequestId)
    requires Orderly(d, w) && id in w.sender.outcomes
    requires w.sender.outcomes[id] == [Cancelled(Some(TURN_TRANSITION))]
    ensures Submitted(w, id) == []
  {
    assert CarriesReason(w.sender.outcomes[id][0]);
  }

  /** A request that a turn transition catches pending never leads to an operation, whatever its client
      or anyone else does afterwards. */
  lemma TransitionSilencesForever(d: Decoders, before: seq<Event>, threadId: ThreadId, after: seq<Event>, id: RequestId)
    requires var w := Play(d, Start(), before);
             id in OfThread(w.sender.pending, threadId)
    requires Play(d, Next(d, Play(d, Start(), before), TurnChange(threadId)), after).sender.count <= TWO_64
    ensures Submitted(Play(d, Next(d, Play(d, Start(), before), TurnChange(threadId)), after), id) == []
  {
    var w := Play(d, Start(), before);
    var next := Next(d, w, TurnChange(threadId));
    var end := Play(d, next, after);
    StartIsOrderly(d);
    PlayCounts(d, next, after);
    assert w.sender.count == next.sender.count;
    PlayKeepsOrder(d, Start(), before);
    TransitionIsClean(d, w, threadId);
    NextKeepsOrder(d, w, TurnChange(threadId));
    OutcomesStay(d, next, after, id);
    PlayKeepsOrder(d, next, after);
    assert end.sender.outcomes[id] == [Cancelled(Some(TURN_TRANSITION))];
    SilentOnceHandled(d, end, id);
  }

  // ---------- Who silences a handler ----------

  /** Over every run: a request whose handler has run led to no operation exactly when its one outcome
      carries the reason, except for command approvals of the older protocol. */
  lemma HandledSilentIff(d: Decoders, events: seq<Event>, id: RequestId)
    requires Play(d, Start(), events).sender.count <= TWO_64
    requires var w := Play(d, Start(), events);
             id in w.asks && id !in w.waiting && !w.asks[id].ExecApprovalV1?
    ensures var w := Play(d, Start(), events);
            && id in w.sender.outcomes && |w.sender.outcomes[id]| == 1
            && (Submitted(w, id) == [] <==> CarriesReason(w.sender.outcomes[id][0]))
  {
    StartIsOrderly(d);
    PlayKeepsOrder(d, Start(), events);
    var w := Play(d, Start(), events);
    SilentIff(d, w.asks[id], w.sender.outcomes[id][0]);
    hide Handle, CarriesReason, Accounted;
  }

  lemma {:induction false} PlayAppend(d: Decoders, w: World, first: seq<Event>, second: seq<Event>)
    ensures Play(d, w, first + second) == Play(d, Play(d, w, first), second)
    decreases |first|
  {
    hide Next;
    if first == [] {
      assert first + second == second;
    } else {
      assert (first + second)[1..] == first[1..] + second;
      PlayAppend(d, Next(d, w, first[0]), first[1..], second);
    }
  }

  lemma PlayOne(d: Decoders, w: World, event: Event)
    ensures Play(d, w, [event]) == Next(d, w, event)
  {
    hide Next;
    assert [event][1..] == [];
    assert Play(d, Next(d, w, event), []) == Next(d, w, event);
  }

  predicate Silenced(w: World, id: RequestId) {
    id in w.sender.outcomes && w.sender.outcomes[id] != [] && CarriesReason(w.sender.outcomes[id][0])
  }

  /** A request resolved by an error with the reason never leads to an operation, whatever comes after. */
  lemma SilencedForever(d: Decoders, before: seq<Event>, after: seq<Event>, id: RequestId)
    requires Play(d, Start(), before + after).sender.count <= TWO_64
    requires Silenced(Play(d, Start(), before), id)
    ensures Submitted(Play(d, Start(), before + after), id) == []
  {
    hide Next, Handle, CarriesReason, Submitted;
    var w := Play(d, Start(), before);
    PlayAppend(d, Start(), before, after);
    PlayCounts(d, w, after);
    StartIsOrderly(d);
    PlayKeepsOrder(d, Start(), before);
    OutcomesStay(d, w, after, id);
    hide Play;
    AtMostOneOperation(d, before + after, id);
  }

  /** Without any turn transition: a client that answers with an error carrying the reason silences its
      handler, and the agent gets no answer. */
  lemma ClientErrorSilences(d: Decoders, ask: Ask, threadId: ThreadId, error: RpcError)
    requires HasReason(error)
    ensures var id := IntegerId(0);
            var events := [Sender(Issue), Sender(Register(id, Some(threadId), ask)),
                           Sender(ReplyError(id, error)), Wake(id)];
            var w := Play(d, Start(), events);
            id in w.asks && id !in w.waiting && Submitted(w, id) == []
  {
    var id := IntegerId(0);
    var a, b := Sender(Issue), Sender(Register(id, Some(threadId), ask));
    var c, e := Sender(ReplyError(id, error)), Wake(id);
    var w1 := Next(d, Start(), a);
    var w2 := Next(d, w1, b);
    var w3 := Next(d, w2, c);
    var w4 := Next(d, w3, e);
    assert [a, b, c, e] == [a] + [b] + [c] + [e];
    PlayAppend(d, Start(), [a] + [b] + [c], [e]);
    PlayAppend(d, Start(), [a] + [b], [c]);
    PlayAppend(d, Start(), [a], [b]);
    PlayOne(d, Start(), a);
    PlayOne(d, w1, b);
    PlayOne(d, w2, c);
    PlayOne(d, w3, e);
    hide Play;
    IdAtSteps(0);
    assert id in w1.sender.unregistered;
    assert id in w2.sender.pending && id !in w2.sender.outcomes && id in w2.waiting && w2.ops == map[];
    assert w3.sender.outcomes[id] == [Errored(error)];
  }

  /** No client error and no cancellation other than a turn transition carries the reason. */
  predicate NoForeignReason(events: seq<Event>) {
    forall i :: 0 <= i < |events| ==> !BringsReason(events[i])
  }

  predicate BringsReason(event: Event) {
    event.Sender? &&
    match event.action
    case ReplyError(_, error) => HasReason(error)
    case CancelThread(_, Some(error)) => HasReason(error)
    case _ => false
  }

  /** The turn transition at `events[i]` catches the request pending. */
  predicate CaughtAt(d: Decoders, w: World, events: seq<Event>, i: nat, id: RequestId)
    requires i < |events|
  {
    events[i].TurnChange? && id in OfThread(Play(d, w, events[..i]).sender.pending, events[i].threadId)
  }

  ghost predicate Caught(d: Decoders, w: World, events: seq<Event>, id: RequestId) {
    exists i :: 0 <= i < |events| && CaughtAt(d, w, events, i, id)
  }

  /** The outcome that a step of the table gives to a pending request. */
  lemma StepOutcome(s: State<Ask, string>, action: Action<Ask, string>, id: RequestId)
    requires id !in s.outcomes && id in Step(s, action).outcomes
    ensures match action {
              case Issue => false
              case Register(_, _, _) => false
              case FailSend(_) => Step(s, action).outcomes[id] == [SendFailed]
              case Reply(_, answer) => Step(s, action).outcomes[id] == [Answered(answer)]
              case ReplyError(_, error) => Step(s, action).outcomes[id] == [Errored(error)]
              case Cancel(_) => Step(s, action).outcomes[id] == [Cancelled(None)]
              case CancelThread(threadId, reason) =>
                Step(s, action).outcomes[id] == [Cancelled(reason)] && id in OfThread(s.pending, threadId)
            }
  {
  }

  /** Where no foreign error carries the reason, only a turn transition resolves a request with it. */
  lemma StepSilences(d: Decoders, w: World, event: Event, id: RequestId)
    requires Orderly(d, w) && id !in w.sender.outcomes && !BringsReason(event)
    requires Silenced(Next(d, w, event), id)
    ensures event.TurnChange? && id in OfThread(w.sender.pending, event.threadId)
  {
    hide Handle, Accounted, Submitted, Step;
    match event
    case Sender(action) => StepOutcome(w.sender, action, id);
    case TurnChange(threadId) => StepOutcome(w.sender, CancelThread(threadId, Some(TURN_TRANSITION)), id);
    case Wake(_) =>
  }

  lemma CaughtCons(d: Decoders, w: World, events: seq<Event>, id: RequestId)
    requires events != [] && Caught(d, Next(d, w, events[0]), events[1..], id)
    ensures Caught(d, w, events, id)
  {
    hide Next;
    var next := Next(d, w, events[0]);
    var i :| 0 <= i < |events[1..]| && CaughtAt(d, next, events[1..], i, id);
    assert events[..i + 1][0] == events[0] && events[..i + 1][1..] == events[1..][..i];
    assert Play(d, w, events[..i + 1]) == Play(d, next, events[1..][..i]);
    assert CaughtAt(d, w, events, i + 1, id);
  }

  lemma {:induction false} SilencedWasCaught(d: Decoders, w: World, events: seq<Event>, id: RequestId)
    requires Orderly(d, w) && Play(d, w, events).sender.count <= TWO_64
    requires NoForeignReason(events) && id !in w.sender.outcomes
    requires Silenced(Play(d, w, events), id)
    ensures Caught(d, w, events, id)
    decreases |events|
  {
    hide Orderly, Next, CarriesReason, BringsReason;
    if events == [] {
    } else {
      var next, rest := Next(d, w, events[0]), events[1..];
      PlayCounts(d, next, rest);
      NextKeepsOrder(d, w, events[0]);
      assert forall i :: 0 <= i < |rest| ==> rest[i] == events[i + 1];
      if id in next.sender.outcomes {
        OutcomesStay(d, next, rest, id);
        assert !BringsReason(events[0]);
        StepSilences(d, w, events[0], id);
        assert Play(d, w, events[..0]) == w;
        assert CaughtAt(d, w, events, 0, id);
      } else {
        SilencedWasCaught(d, next, rest, id);
        CaughtCons(d, w, events, id);
      }
    }
  }

  lemma CaughtIsSilenced(d: Decoders, events: seq<Event>, i: nat, id: RequestId)
    requires i < |events| && CaughtAt(d, Start(), events, i, id)
    requires Play(d, Start(), events).sender.count <= TWO_64
    ensures Silenced(Play(d, Start(), events), id)
  {
    var before, after := events[..i], events[i + 1..];
    var w := Play(d, Start(), before);
    var next := Next(d, w, events[i]);
    assert events == before + ([events[i]] + after);
    PlayAppend(d, Start(), before, [events[i]] + after);
    assert ([events[i]] + after)[1..] == after;
    hide Next;
    PlayCounts(d, next, after);
    assert w.sender.count <= next.sender.count by { PlayOne(d, w, events[i]); PlayCounts(d, w, [events[i]]); }
    StartIsOrderly(d);
    PlayKeepsOrder(d, Start(), before);
    TransitionIsClean(d, w, events[i].threadId);
    NextKeepsOrder(d, w, events[i]);
    OutcomesStay(d, next, after, id);
  }

  /** Over every run in which nothing but turn transitions carries the reason: an error with the reason
      resolved a request exactly when a turn transition caught it pending; so its handler, unless it is one
      of the older protocol for commands, submitted nothing exactly then. */
  lemma SilencedIffCaught(d: Decoders, events: seq<Event>, id: RequestId)
    requires Play(d, Start(), events).sender.count <= TWO_64 && NoForeignReason(events)
    ensures var w := Play(d, Start(), events);
            && (Silenced(w, id) <==> Caught(d, Start(), events, id))
            && (id in w.asks && id !in w.waiting && !w.asks[id].ExecApprovalV1? ==>
                  (Submitted(w, id) == [] <==> Caught(d, Start(), events, id)))
  {
    hide Play, Next, CarriesReason, NoForeignReason, CaughtAt;
    var w := Play(d, Start(), events);
    StartIsOrderly(d);
    if Silenced(w, id) {
      SilencedWasCaught(d, Start(), events, id);
    }
    if Caught(d, Start(), events, id) {
      var i :| 0 <= i < |events| && CaughtAt(d, Start(), events, i, id);
      CaughtIsSilenced(d, events, i, id);
    }
    if id in w.asks && id !in w.waiting && !w.asks[id].ExecApprovalV1? {
      HandledSilentIff(d, events, id);
    }
  }
}
