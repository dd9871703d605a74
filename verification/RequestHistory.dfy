/** What the table of callbacks holds, in terms of what happened: an entry is there exactly from its registration
    until the first event that resolves it, and that event gives it its outcome. */
module RequestHistory {
  import opened Wrappers
  import opened Ids
  import opened Outgoing

  /** The action resolves a pending request of this thread, with this outcome. */
  predicate Settles<R, A(==)>(action: Action<R, A>, id: RequestId, thread: Option<ThreadId>, outcome: Outcome<A>) {
    match action
    case Issue => false
    case Register(_, _, _) => false
    case FailSend(requestId) => requestId == id && outcome == SendFailed
    case Reply(requestId, answer) => requestId == id && outcome == Answered(answer)
    case ReplyError(requestId, error) => requestId == id && outcome == Errored(error)
    case Cancel(requestId) => requestId == id && outcome == Cancelled(None)
    case CancelThread(threadId, reason) => thread == Some(threadId) && outcome == Cancelled(reason)
  }

  ghost predicate SettlesSomehow<R, A(!new)>(action: Action<R, A>, id: RequestId, thread: Option<ThreadId>) {
    exists outcome :: Settles(action, id, thread, outcome)
  }

  /** The entry is registered at `i`, under an id that was issued for it. */
  ghost predicate RegisteredAt<R, A>(actions: seq<Action<R, A>>, i: nat, id: RequestId, entry: Entry<R>) {
    && i < |actions| && actions[i] == Register(id, entry.thread, entry.request)
    && id in Run(Initial<R, A>(), actions[..i]).unregistered
  }

  /** It was registered, and nothing has resolved it since. */
  ghost predicate Awaits<R, A(!new)>(actions: seq<Action<R, A>>, id: RequestId, entry: Entry<R>) {
    exists i: nat :: RegisteredAt(actions, i, id, entry)
                     && forall j :: i < j < |actions| ==> !SettlesSomehow(actions[j], id, entry.thread)
  }

  lemma {:induction false} RunSnoc<R, A>(s: State<R, A>, actions: seq<Action<R, A>>, last: Action<R, A>)
    ensures Run(s, actions + [last]) == Step(Run(s, actions), last)
    decreases |actions|
  {
    hide Step;
    if actions == [] {
      assert actions + [last] == [last] && [last][1..] == [];
      assert Run(Step(s, last), []) == Step(s, last);
    } else {
      assert (actions + [last])[1..] == actions[1..] + [last];
      RunSnoc(Step(s, actions[0]), actions[1..], last);
    }
  }

  lemma SettlingIsOne<R, A(!new)>(action: Action<R, A>, id: RequestId, thread: Option<ThreadId>)
    ensures SettlesSomehow(action, id, thread) <==>
            match action {
              case Issue => false
              case Register(_, _, _) => false
              case FailSend(requestId) => requestId == id
              case Reply(requestId, _) => requestId == id
              case ReplyError(requestId, _) => requestId == id
              case Cancel(requestId) => requestId == id
              case CancelThread(threadId, _) => thread == Some(threadId)
            }
  {
    match action
    case FailSend(requestId) => assert requestId == id ==> Settles(action, id, thread, SendFailed);
    case Reply(requestId, answer) => assert requestId == id ==> Settles(action, id, thread, Answered(answer));
    case ReplyError(requestId, error) => assert requestId == id ==> Settles(action, id, thread, Errored(error));
    case Cancel(requestId) => assert requestId == id ==> Settles(action, id, thread, Cancelled(None));
    case CancelThread(threadId, reason) =>
      assert thread == Some(threadId) ==> Settles(action, id, thread, Cancelled(reason));
    case _ =>
  }

  lemma StepPending<R, A(!new)>(s: State<R, A>, action: Action<R, A>, id: RequestId, entry: Entry<R>)
    requires Accounted(s)
    ensures id in Step(s, action).pending && Step(s, action).pending[id] == entry <==>
            || (action == Register(id, entry.thread, entry.request) && id in s.unregistered)
            || (id in s.pending && s.pending[id] == entry && !SettlesSomehow(action, id, entry.thread))
  {
    SettlingIsOne(action, id, entry.thread);
    hide SettlesSomehow;
  }

  lemma AwaitsSnoc<R, A(!new)>(actions: seq<Action<R, A>>, last: Action<R, A>, id: RequestId, entry: Entry<R>)
    ensures Awaits(actions + [last], id, entry) <==>
            || (last == Register(id, entry.thread, entry.request) && id in Run(Initial<R, A>(), actions).unregistered)
            || (Awaits(actions, id, entry) && !SettlesSomehow(last, id, entry.thread))
  {
    hide Run, SettlesSomehow;
    var all := actions + [last];
    assert all[..|actions|] == actions && all[|actions|] == last;
    assert forall i :: 0 <= i <= |actions| ==> all[..i] == actions[..i];
    if Awaits(actions, id, entry) && !SettlesSomehow(last, id, entry.thread) {
      var i: nat :| RegisteredAt(actions, i, id, entry)
                    && forall j :: i < j < |actions| ==> !SettlesSomehow(actions[j], id, entry.thread);
      assert RegisteredAt(all, i, id, entry);
    }
    if last == Register(id, entry.thread, entry.request) && id in Run(Initial<R, A>(), actions).unregistered {
      assert RegisteredAt(all, |actions|, id, entry);
    }
    if Awaits(all, id, entry) {
      var i: nat :| RegisteredAt(all, i, id, entry)
                    && forall j :: i < j < |all| ==> !SettlesSomehow(all[j], id, entry.thread);
      if i < |actions| {
        assert RegisteredAt(actions, i, id, entry);
        assert forall j :: i < j < |actions| ==> actions[j] == all[j];
      }
    }
  }

  lemma PrefixAccounted<R, A>(actions: seq<Action<R, A>>, last: Action<R, A>)
    requires Run(Initial<R, A>(), actions + [last]).count <= TWO_64
    ensures Run(Initial<R, A>(), actions).count <= TWO_64 && Accounted(Run(Initial<R, A>(), actions))
    ensures Run(Initial<R, A>(), actions + [last]) == Step(Run(Initial<R, A>(), actions), last)
  {
    hide Accounted, Step;
    RunSnoc(Initial<R, A>(), actions, last);
    CountGrows(Run(Initial<R, A>(), actions), last);
    ResolvedAtMostOnce(actions);
  }

  /** Over every run that hands out at most 2^64 ids, the table holds exactly the entries that were registered under
      an issued id and that nothing has resolved since, each with the thread and the request it was registered with. */
  lemma {:induction false} PendingByHistory<R, A(!new)>(actions: seq<Action<R, A>>, id: RequestId, entry: Entry<R>)
    requires Run(Initial<R, A>(), actions).count <= TWO_64
    ensures var pending := Run(Initial<R, A>(), actions).pending;
            id in pending && pending[id] == entry <==> Awaits(actions, id, entry)
    decreases |actions|
  {
    hide Step, Awaits;
    if actions == [] {
      assert !Awaits(actions, id, entry) by { NothingAwaits<R, A>(id, entry); }
    } else {
      var before, last := actions[..|actions| - 1], actions[|actions| - 1];
      assert actions == before + [last];
      PrefixAccounted(before, last);
      hide Run;
      PendingByHistory(before, id, entry);
      StepPending(Run(Initial<R, A>(), before), last, id, entry);
      AwaitsSnoc(before, last, id, entry);
    }
  }

  lemma NothingAwaits<R, A(!new)>(id: RequestId, entry: Entry<R>)
    ensures !Awaits<R, A>([], id, entry)
  {
  }

  /** An action finds the request pending and gives it its outcome. */
  ghost predicate SettledAt<R, A>(actions: seq<Action<R, A>>, i: nat, id: RequestId, outcome: Outcome<A>) {
    && i < |actions|
    && var pending := Run(Initial<R, A>(), actions[..i]).pending;
       id in pending && Settles(actions[i], id, pending[id].thread, outcome)
  }

  lemma StepSettles<R, A(!new)>(s: State<R, A>, action: Action<R, A>, id: RequestId, outcome: Outcome<A>)
    requires Accounted(s)
    ensures id in Step(s, action).outcomes && outcome in Step(s, action).outcomes[id] <==>
            || (id in s.outcomes && outcome in s.outcomes[id])
            || (id in s.pending && Settles(action, id, s.pending[id].thread, outcome))
  {
  }

  lemma SettledSnoc<R, A>(actions: seq<Action<R, A>>, last: Action<R, A>, id: RequestId, outcome: Outcome<A>)
    ensures (exists i: nat :: SettledAt(actions + [last], i, id, outcome)) <==>
            || (exists i: nat :: SettledAt(actions, i, id, outcome))
            || (var pending := Run(Initial<R, A>(), actions).pending;
                id in pending && Settles(last, id, pending[id].thread, outcome))
  {
    hide Run, Settles;
    var all := actions + [last];
    assert all[..|actions|] == actions && all[|actions|] == last;
    assert forall i :: 0 <= i <= |actions| ==> all[..i] == actions[..i];
    forall i: nat | i < |actions|
      ensures SettledAt(all, i, id, outcome) <==> SettledAt(actions, i, id, outcome)
    {
      assert all[i] == actions[i];
    }
    assert SettledAt(all, |actions|, id, outcome) <==>
           var pending := Run(Initial<R, A>(), actions).pending;
           id in pending && Settles(last, id, pending[id].thread, outcome);
  }

  /** A request has an outcome exactly when an action found it pending and gave it this one. */
  lemma {:induction false} OutcomeByHistory<R, A(!new)>(actions: seq<Action<R, A>>, id: RequestId, outcome: Outcome<A>)
    requires Run(Initial<R, A>(), actions).count <= TWO_64
    ensures var outcomes := Run(Initial<R, A>(), actions).outcomes;
            id in outcomes && outcome in outcomes[id] <==> exists i: nat :: SettledAt(actions, i, id, outcome)
    decreases |actions|
  {
    hide Step, SettledAt;
    if actions == [] {
      NothingSettled<R, A>(id, outcome);
    } else {
      var before, last := actions[..|actions| - 1], actions[|actions| - 1];
      assert actions == before + [last];
      PrefixAccounted(before, last);
      hide Run;
      OutcomeByHistory(before, id, outcome);
      StepSettles(Run(Initial<R, A>(), before), last, id, outcome);
      SettledSnoc(before, last, id, outcome);
    }
  }

  lemma NothingSettled<R, A>(id: RequestId, outcome: Outcome<A>)
    ensures !exists i: nat :: SettledAt<R, A>([], i, id, outcome)
  {
  }
}
