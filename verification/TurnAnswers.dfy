/** What a handler tells the agent: over every run, each kind of request leads from each kind of outcome to
    one definite operation, which carries the ids of its own request. */
module TurnAnswers {
  import opened Wrappers
  import opened Ids
  import opened Outgoing
  import opened TurnBoundaries

  // ---------- Requests whose handler has run ----------

  /** The run hands out at most 2^64 ids, and at its end the handler of the request has run. */
  ghost predicate Handled(d: Decoders, events: seq<Event>, id: RequestId, ask: Ask) {
    var w := Play(d, Start(), events);
    && w.sender.count <= TWO_64
    && id in w.asks && w.asks[id] == ask && id !in w.waiting
    && id in w.sender.outcomes
  }

  /** Its client had answered `x`. */
  ghost predicate AnsweredWith(d: Decoders, events: seq<Event>, id: RequestId, ask: Ask, x: string) {
    Handled(d, events, id, ask) && Play(d, Start(), events).sender.outcomes[id] == [Answered(x)]
  }

  /** The request could not be sent, was cancelled, or its client sent an error; none of it with the reason of
      a turn transition. */
  ghost predicate FailedWith(d: Decoders, events: seq<Event>, id: RequestId, ask: Ask, outcome: Outcome<string>) {
    && Handled(d, events, id, ask) && Play(d, Start(), events).sender.outcomes[id] == [outcome]
    && match outcome {
         case Answered(_) => false
         case Errored(error) => error.reason != Some("turnTransition")
         case Cancelled(Some(error)) => error.reason != Some("turnTransition")
         case Cancelled(None) => true
         case SendFailed => true
       }
  }

  /** All that was submitted for the request. */
  ghost function SubmittedFor(d: Decoders, events: seq<Event>, id: RequestId): seq<Op> {
    Submitted(Play(d, Start(), events), id)
  }

  lemma HandledAsItCalls(d: Decoders, events: seq<Event>, id: RequestId, ask: Ask)
    requires Handled(d, events, id, ask)
    ensures var outcomes := Play(d, Start(), events).sender.outcomes[id];
            && |outcomes| == 1
            && SubmittedFor(d, events, id) ==
               if Handle(d, ask, outcomes[0]).Some? then [Handle(d, ask, outcomes[0]).value] else []
  {
    hide Handle, Play;
    AtMostOneOperation(d, events, id);
  }

  // ---------- Approvals ----------

  /** The operation that approves or refuses a patch, with the id of its call. */
  predicate DecidesPatch(ops: seq<Op>, callId: string, decision: ReviewDecision) {
    ops == [PatchApprovalOp(callId, decision)]
  }

  predicate DecidesExec(ops: seq<Op>, id: string, turnId: string, decision: ReviewDecision) {
    ops == [ExecApprovalOp(id, turnId, decision)]
  }

  /** A file change is approved, for once or for the session, exactly when the answer says so; it is denied
      exactly when the answer declines it or cannot be read, and the turn is aborted exactly when the answer
      cancels it. */
  lemma FileChangeAnswered(d: Decoders, events: seq<Event>, id: RequestId, itemId: string, x: string)
    requires AnsweredWith(d, events, id, FileChangeApproval(itemId), x)
    ensures var ops := SubmittedFor(d, events, id);
            && (DecidesPatch(ops, itemId, Approved) <==> d.fileChange(x) == Some(AcceptChange))
            && (DecidesPatch(ops, itemId, ApprovedForSession) <==> d.fileChange(x) == Some(AcceptChangeForSession))
            && (DecidesPatch(ops, itemId, Denied) <==>
                  d.fileChange(x) == None || d.fileChange(x) == Some(DeclineChange))
            && (DecidesPatch(ops, itemId, Abort) <==> d.fileChange(x) == Some(CancelChange))
  {
    HandledAsItCalls(d, events, id, FileChangeApproval(itemId));
    hide Play, Submitted;
  }

  /** The same for a command, whose operation carries the approval's own id where there is one and the item's
      otherwise; amendments are passed on. */
  lemma CommandAnswered(d: Decoders, events: seq<Event>, id: RequestId, approvalId: Option<string>, itemId: string,
                        turnId: string, x: string)
    requires AnsweredWith(d, events, id, CommandApproval(approvalId, itemId, turnId), x)
    ensures var ops := SubmittedFor(d, events, id);
            var opId := match approvalId case Some(own) => own case None => itemId;
            && (DecidesExec(ops, opId, turnId, Approved) <==> d.command(x) == Some(AcceptCommand))
            && (DecidesExec(ops, opId, turnId, ApprovedForSession) <==> d.command(x) == Some(AcceptCommandForSession))
            && (DecidesExec(ops, opId, turnId, Denied) <==>
                  d.command(x) == None || d.command(x) == Some(DeclineCommand))
            && (DecidesExec(ops, opId, turnId, Abort) <==> d.command(x) == Some(CancelCommand))
            && (forall rule :: DecidesExec(ops, opId, turnId, ApprovedExecpolicyAmendment(rule)) <==>
                               d.command(x) == Some(AcceptWithExecpolicyAmendment(rule)))
            && (forall host, allow :: DecidesExec(ops, opId, turnId, NetworkPolicyAmendment(host, allow)) <==>
                                      d.command(x) == Some(ApplyNetworkPolicyAmendment(host, allow)))
  {
    HandledAsItCalls(d, events, id, CommandApproval(approvalId, itemId, turnId));
    hide Play, Submitted;
  }

  /** The older protocol: the answer is the decision, and one that cannot be read is a refusal. */
  lemma ReviewAnswered(d: Decoders, events: seq<Event>, id: RequestId, callId: string, turnId: string, x: string)
    ensures AnsweredWith(d, events, id, PatchApprovalV1(callId), x) ==>
            forall decision :: DecidesPatch(SubmittedFor(d, events, id), callId, decision) <==>
              d.review(x) == Some(decision) || (d.review(x) == None && decision == Denied)
    ensures AnsweredWith(d, events, id, ExecApprovalV1(callId, turnId), x) ==>
            forall decision :: DecidesExec(SubmittedFor(d, events, id), callId, turnId, decision) <==>
              d.review(x) == Some(decision) || (d.review(x) == None && decision == Denied)
  {
    if AnsweredWith(d, events, id, PatchApprovalV1(callId), x) {
      HandledAsItCalls(d, events, id, PatchApprovalV1(callId));
    }
    if AnsweredWith(d, events, id, ExecApprovalV1(callId, turnId), x) {
      HandledAsItCalls(d, events, id, ExecApprovalV1(callId, turnId));
    }
    hide Play, Submitted;
  }

  /** A request for an approval that fails is refused, except that the older one for commands is left alone. */
  lemma ApprovalFailed(d: Decoders, events: seq<Event>, id: RequestId, ask: Ask, outcome: Outcome<string>)
    requires FailedWith(d, events, id, ask, outcome)
    ensures var ops := SubmittedFor(d, events, id);
            match ask {
              case PatchApprovalV1(callId) => DecidesPatch(ops, callId, Denied)
              case FileChangeApproval(itemId) => DecidesPatch(ops, itemId, Denied)
              case CommandApproval(Some(own), _, turnId) => DecidesExec(ops, own, turnId, Denied)
              case CommandApproval(None, itemId, turnId) => DecidesExec(ops, itemId, turnId, Denied)
              case ExecApprovalV1(_, _) => ops == []
              case _ => true
            }
  {
    HandledAsItCalls(d, events, id, ask);
    hide Play, Submitted;
  }

  // ---------- Answers for the user and for tools ----------

  /** The user's answers reach the turn as they were given; where they cannot be read, or the request failed,
      there are none. */
  lemma UserInputHandled(d: Decoders, events: seq<Event>, id: RequestId, turnId: string)
    ensures forall x :: AnsweredWith(d, events, id, UserInput(turnId), x) ==>
              SubmittedFor(d, events, id) ==
              [UserInputAnswerOp(turnId, match d.userInput(x) case Some(answers) => answers case None => map[])]
    ensures forall outcome :: FailedWith(d, events, id, UserInput(turnId), outcome) ==>
              SubmittedFor(d, events, id) == [UserInputAnswerOp(turnId, map[])]
  {
    if Handled(d, events, id, UserInput(turnId)) {
      HandledAsItCalls(d, events, id, UserInput(turnId));
    }
    hide Play, Submitted;
  }

  /** A tool's response reaches its call as it was given; a response that cannot be read and a request that
      failed are reported as failures, each with its own text. */
  lemma ToolCallHandled(d: Decoders, events: seq<Event>, id: RequestId, callId: string)
    ensures forall x :: AnsweredWith(d, events, id, ToolCall(callId), x) ==>
              SubmittedFor(d, events, id) ==
              match d.tool(x) {
                case Some((text, success)) => [ToolResponseOp(callId, text, success)]
                case None => [ToolResponseOp(callId, "dynamic tool response was invalid", false)]
              }
    ensures forall outcome :: FailedWith(d, events, id, ToolCall(callId), outcome) ==>
              SubmittedFor(d, events, id) == [ToolResponseOp(callId, "dynamic tool request failed", false)]
  {
    if Handled(d, events, id, ToolCall(callId)) {
      HandledAsItCalls(d, events, id, ToolCall(callId));
    }
    hide Play, Submitted;
  }

  // ---------- Which event decides ----------

  /** The event resolves a pending request of this thread, with this outcome. */
  predicate Resolves(event: Event, id: RequestId, thread: Option<ThreadId>, outcome: Outcome<string>) {
    match event
    case Sender(Reply(requestId, answer)) => requestId == id && outcome == Answered(answer)
    case Sender(ReplyError(requestId, error)) => requestId == id && outcome == Errored(error)
    case Sender(Cancel(requestId)) => requestId == id && outcome == Cancelled(None)
    case Sender(FailSend(requestId)) => requestId == id && outcome == SendFailed
    case Sender(CancelThread(threadId, reason)) => thread == Some(threadId) && outcome == Cancelled(reason)
    case TurnChange(threadId) => thread == Some(threadId) && outcome == Cancelled(Some(TURN_TRANSITION))
    case _ => false
  }

  /** What a pending entry asks for is what its handler was started for. */
  ghost predicate AsksMatch(w: World) {
    forall id :: id in w.sender.pending ==> id in w.asks && w.sender.pending[id].request == w.asks[id]
  }

  lemma NextAsksMatch(d: Decoders, w: World, event: Event)
    requires AsksMatch(w)
    ensures AsksMatch(Next(d, w, event))
  {
    hide Handle;
  }

  lemma {:induction false} PlayAsksMatch(d: Decoders, w: World, events: seq<Event>)
    requires AsksMatch(w)
    ensures AsksMatch(Play(d, w, events))
    decreases |events|
  {
    hide AsksMatch, Next;
    if events == [] {
    } else {
      NextAsksMatch(d, w, events[0]);
      PlayAsksMatch(d, Next(d, w, events[0]), events[1..]);
    }
  }

  lemma Registered(s: State<Ask, string>, id: RequestId)
    requires Accounted(s) && id in s.outcomes
    ensures id !in s.unregistered
  {
  }

  lemma NextKeepsResolved(d: Decoders, w: World, event: Event, id: RequestId)
    requires Orderly(d, w) && id in w.sender.outcomes
    ensures var next := Next(d, w, event);
            && id in next.asks && next.asks[id] == w.asks[id]
            && (id !in w.waiting || event == Wake(id) ==> id !in next.waiting)
  {
    Registered(w.sender, id);
    OneOutcomeEach(w.sender);
    hide Accounted, Handle, Submitted, Step;
    assert id in w.asks;
  }

  /** From its resolution on a request keeps its outcome and its ask, and once woken its handler has run. */
  lemma {:induction false} ResolvedPlay(d: Decoders, w: World, events: seq<Event>, id: RequestId)
    requires Orderly(d, w) && Play(d, w, events).sender.count <= TWO_64
    requires id in w.sender.outcomes
    ensures var end := Play(d, w, events);
            && id in end.asks && id in w.asks && end.asks[id] == w.asks[id]
            && id in end.sender.outcomes && end.sender.outcomes[id] == w.sender.outcomes[id]
            && (id !in w.waiting || Wake(id) in events ==> id !in end.waiting)
    decreases |events|
  {
    OutcomesStay(d, w, events, id);
    assert id in w.asks;
    if events == [] {
    } else {
      var next, rest := Next(d, w, events[0]), events[1..];
      PlayCounts(d, next, rest);
      NextKeepsOrder(d, w, events[0]);
      NextKeepsResolved(d, w, events[0], id);
      hide Orderly, Next;
      assert id in next.sender.outcomes by {
        OutcomesStay(d, w, [events[0]], id);
        PlayOne(d, w, events[0]);
      }
      assert Wake(id) in events ==> events[0] == Wake(id) || Wake(id) in rest;
      ResolvedPlay(d, next, rest, id);
    }
  }

  lemma ResolvesPending(d: Decoders, w: World, event: Event, id: RequestId, outcome: Outcome<string>)
    requires Orderly(d, w) && id in w.sender.pending
    requires Resolves(event, id, w.sender.pending[id].thread, outcome)
    ensures var next := Next(d, w, event);
            id in next.sender.outcomes && next.sender.outcomes[id] == [outcome] && next.asks == w.asks
  {
    assert id !in w.sender.outcomes;
    hide Orderly, Handle, Accounted;
  }

  /** The event that resolves a pending request decides: whatever happens afterwards, once its handler was
      woken it has run with that outcome, for what the entry asked. */
  lemma ResolutionDecides(d: Decoders, before: seq<Event>, event: Event, after: seq<Event>, id: RequestId,
                          outcome: Outcome<string>)
    requires Play(d, Start(), before + [event] + after).sender.count <= TWO_64
    requires id in Play(d, Start(), before).sender.pending
    requires Resolves(event, id, Play(d, Start(), before).sender.pending[id].thread, outcome)
    requires Wake(id) in after
    ensures var ask := Play(d, Start(), before).sender.pending[id].request;
            && Handled(d, before + [event] + after, id, ask)
            && Play(d, Start(), before + [event] + after).sender.outcomes[id] == [outcome]
  {
    var w := Play(d, Start(), before);
    var next := Next(d, w, event);
    PlayAppend(d, Start(), before + [event], after);
    PlayAppend(d, Start(), before, [event]);
    PlayOne(d, w, event);
    PlayCounts(d, next, after);
    PlayCounts(d, w, [event]);
    StartIsOrderly(d);
    PlayKeepsOrder(d, Start(), before);
    PlayAsksMatch(d, Start(), before);
    hide Play, Next, Orderly, Resolves;
    NextKeepsOrder(d, w, event);
    ResolvesPending(d, w, event, id, outcome);
    ResolvedPlay(d, next, after, id);
  }
}
