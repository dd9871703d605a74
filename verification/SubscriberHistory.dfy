/** Who is subscribed to a thread, in terms of what happened: live connections, listeners and subscribers are
    there exactly from the operation that brought them until the first one that takes them away. */
module SubscriberHistory {
  import opened Ids
  import opened ThreadStateIndex

  // ---------- Histories ----------

  /** The connection was initialized and not removed since. */
  ghost predicate LiveBy(ops: seq<Operation>, c: ConnectionId) {
    exists i :: 0 <= i < |ops| && ops[i] == ConnectionInitialized(c)
                && forall j :: i < j < |ops| ==> ops[j] != RemoveConnection(c)
  }

  predicate EndsListener(op: Operation, id: SubscriptionId, t: ThreadId, c: ConnectionId) {
    || op == RemoveListener(id) || op == RemoveThreadState(t) || op == Unsubscribe(t, c) || op == RemoveConnection(c)
    || (op.SetListener? && op.id == id)
  }

  /** The listener was set for this pair, and neither set anew nor taken away since. */
  ghost predicate ListensBy(ops: seq<Operation>, id: SubscriptionId, t: ThreadId, c: ConnectionId) {
    exists i :: 0 <= i < |ops| && ops[i] == SetListener(id, t, c)
                && forall j :: i < j < |ops| ==> !EndsListener(ops[j], id, t, c)
  }

  /** A listener of the pair is set, or a connection that is live is subscribed. */
  ghost predicate Pairs(before: seq<Operation>, op: Operation, t: ThreadId, c: ConnectionId) {
    || (op.SetListener? && op.t == t && op.c == c)
    || ((op == TryEnsureSubscribed(t, c) || op == TryAddConnection(t, c)) && LiveBy(before, c))
  }

  /** The thread or the connection goes, the connection is unsubscribed, or the pair's last listener is removed. */
  ghost predicate Parts(before: seq<Operation>, op: Operation, t: ThreadId, c: ConnectionId) {
    || op == RemoveThreadState(t) || op == Unsubscribe(t, c) || op == RemoveConnection(c)
    || (op.RemoveListener? && ListensBy(before, op.id, t, c)
        && forall other :: other != op.id ==> !ListensBy(before, other, t, c))
  }

  /** The pair was made and has not been parted since. */
  ghost predicate PairedBy(ops: seq<Operation>, t: ThreadId, c: ConnectionId) {
    exists i :: 0 <= i < |ops| && Pairs(ops[..i], ops[i], t, c)
                && forall j :: i < j < |ops| ==> !Parts(ops[..j], ops[j], t, c)
  }

  // ---------- Histories grow at the end ----------

  lemma LiveSnoc(ops: seq<Operation>, op: Operation, c: ConnectionId)
    ensures LiveBy(ops + [op], c) <==> op == ConnectionInitialized(c) || (LiveBy(ops, c) && op != RemoveConnection(c))
  {
    var all := ops + [op];
    assert all[|ops|] == op;
    if LiveBy(ops, c) && op != RemoveConnection(c) {
      var i :| 0 <= i < |ops| && ops[i] == ConnectionInitialized(c)
               && forall j :: i < j < |ops| ==> ops[j] != RemoveConnection(c);
      assert all[i] == ConnectionInitialized(c);
    }
    if LiveBy(all, c) && op != ConnectionInitialized(c) {
      var i :| 0 <= i < |all| && all[i] == ConnectionInitialized(c)
               && forall j :: i < j < |all| ==> all[j] != RemoveConnection(c);
      assert ops[i] == ConnectionInitialized(c) && forall j :: i < j < |ops| ==> ops[j] == all[j];
    }
  }

  lemma ListensSnoc(ops: seq<Operation>, op: Operation, id: SubscriptionId, t: ThreadId, c: ConnectionId)
    ensures ListensBy(ops + [op], id, t, c) <==>
            op == SetListener(id, t, c) || (ListensBy(ops, id, t, c) && !EndsListener(op, id, t, c))
  {
    hide EndsListener;
    var all := ops + [op];
    assert all[|ops|] == op;
    if ListensBy(ops, id, t, c) && !EndsListener(op, id, t, c) {
      var i :| 0 <= i < |ops| && ops[i] == SetListener(id, t, c)
               && forall j :: i < j < |ops| ==> !EndsListener(ops[j], id, t, c);
      assert all[i] == SetListener(id, t, c);
    }
    if ListensBy(all, id, t, c) && op != SetListener(id, t, c) {
      var i :| 0 <= i < |all| && all[i] == SetListener(id, t, c)
               && forall j :: i < j < |all| ==> !EndsListener(all[j], id, t, c);
      assert ops[i] == SetListener(id, t, c) && forall j :: i < j < |ops| ==> ops[j] == all[j];
    }
  }

  lemma PairedSnoc(ops: seq<Operation>, op: Operation, t: ThreadId, c: ConnectionId)
    ensures PairedBy(ops + [op], t, c) <==> Pairs(ops, op, t, c) || (PairedBy(ops, t, c) && !Parts(ops, op, t, c))
  {
    hide Pairs, Parts;
    var all := ops + [op];
    assert all[|ops|] == op && all[..|ops|] == ops;
    assert forall i :: 0 <= i <= |ops| ==> all[..i] == ops[..i];
    if PairedBy(ops, t, c) && !Parts(ops, op, t, c) {
      var i :| 0 <= i < |ops| && Pairs(ops[..i], ops[i], t, c)
               && forall j :: i < j < |ops| ==> !Parts(ops[..j], ops[j], t, c);
      assert Pairs(all[..i], all[i], t, c);
    }
    if Pairs(ops, op, t, c) {
      assert Pairs(all[..|ops|], all[|ops|], t, c);
    }
    if PairedBy(all, t, c) {
      var i :| 0 <= i < |all| && Pairs(all[..i], all[i], t, c)
               && forall j :: i < j < |all| ==> !Parts(all[..j], all[j], t, c);
      if i < |ops| {
        assert Pairs(ops[..i], ops[i], t, c);
        assert forall j :: i < j < |ops| ==> ops[j] == all[j];
        assert !Parts(all[..|ops|], all[|ops|], t, c);
      }
    }
  }

  // ---------- The maps follow histories ----------

  /** The maps hold what the history says. */
  ghost predicate Records(s: Index, ops: seq<Operation>) {
    && Consistent(s)
    && (forall c :: c in s.live <==> LiveBy(ops, c))
    && (forall id, t, c ::
          id in s.subscriptions && s.subscriptions[id] == Subscription(t, c) <==> ListensBy(ops, id, t, c))
    && (forall t, c :: Linked(s, t, c) <==> PairedBy(ops, t, c))
  }

  lemma ApplyLive(s: Index, op: Operation, c: ConnectionId)
    ensures c in Apply(s, op).live <==> op == ConnectionInitialized(c) || (c in s.live && op != RemoveConnection(c))
  {
  }

  lemma ApplyListens(s: Index, op: Operation, id: SubscriptionId, t: ThreadId, c: ConnectionId)
    requires Consistent(s)
    ensures id in Apply(s, op).subscriptions && Apply(s, op).subscriptions[id] == Subscription(t, c) <==>
            || op == SetListener(id, t, c)
            || (id in s.subscriptions && s.subscriptions[id] == Subscription(t, c) && !EndsListener(op, id, t, c))
  {
    hide SubscribedOtherwise, Members;
    if id in s.subscriptions && s.subscriptions[id] == Subscription(t, c) {
      assert Linked(s, t, c) && Indexed(s, t, c);
    }
  }

  lemma ApplyPairs(s: Index, op: Operation, t: ThreadId, c: ConnectionId)
    requires Consistent(s)
    ensures Linked(Apply(s, op), t, c) <==>
            || (op.SetListener? && op.t == t && op.c == c)
            || ((op == TryEnsureSubscribed(t, c) || op == TryAddConnection(t, c)) && c in s.live)
            || (Linked(s, t, c) && op != RemoveThreadState(t) && op != Unsubscribe(t, c) && op != RemoveConnection(c)
                && !(op.RemoveListener? && op.id in s.subscriptions && s.subscriptions[op.id] == Subscription(t, c)
                     && !SubscribedOtherwise(s, op.id, Subscription(t, c))))
  {
    assert Linked(s, t, c) <==> Indexed(s, t, c);
    match op
    case RemoveListener(id) =>
      if id in s.subscriptions {
        var without := s.(subscriptions := s.subscriptions - {id});
        UnlinkFacts(without, s.subscriptions[id].thread, s.subscriptions[id].connection);
        hide Unlink;
      }
    case Unsubscribe(u, d) =>
      UnlinkFacts(s, u, d);
      hide Unlink;
    case SetListener(id, u, d) =>
      LinkFacts(s.(subscriptions := s.subscriptions[id := Subscription(u, d)]), u, d);
      hide Link;
    case TryEnsureSubscribed(u, d) =>
      LinkFacts(s, u, d);
      hide Link;
    case TryAddConnection(u, d) =>
      LinkFacts(s, u, d);
      hide Link;
    case _ =>
  }

  lemma LastListener(s: Index, ops: seq<Operation>, id: SubscriptionId, t: ThreadId, c: ConnectionId)
    requires Records(s, ops)
    ensures id in s.subscriptions && s.subscriptions[id] == Subscription(t, c)
            && !SubscribedOtherwise(s, id, Subscription(t, c)) <==>
            ListensBy(ops, id, t, c) && forall other :: other != id ==> !ListensBy(ops, other, t, c)
  {
    hide Consistent, ListensBy, LiveBy, PairedBy, Linked;
    assert forall other :: other in s.subscriptions && s.subscriptions[other] == Subscription(t, c) <==>
                           ListensBy(ops, other, t, c);
  }

  lemma ApplyRecords(s: Index, ops: seq<Operation>, op: Operation)
    requires Records(s, ops)
    ensures Records(Apply(s, op), ops + [op])
  {
    var r, all := Apply(s, op), ops + [op];
    ApplyConsistent(s, op);
    hide Apply, Consistent, ListensBy, LiveBy, PairedBy, Linked, EndsListener, SubscribedOtherwise;
    forall c
      ensures c in r.live <==> LiveBy(all, c)
    {
      ApplyLive(s, op, c);
      LiveSnoc(ops, op, c);
    }
    forall id, t, c
      ensures id in r.subscriptions && r.subscriptions[id] == Subscription(t, c) <==> ListensBy(all, id, t, c)
    {
      ApplyListens(s, op, id, t, c);
      ListensSnoc(ops, op, id, t, c);
    }
    forall t, c
      ensures Linked(r, t, c) <==> PairedBy(all, t, c)
    {
      ApplyPairs(s, op, t, c);
      PairedSnoc(ops, op, t, c);
      if op.RemoveListener? {
        LastListener(s, ops, op.id, t, c);
      }
    }
  }

  lemma {:induction false} RunRecords(s: Index, before: seq<Operation>, ops: seq<Operation>)
    requires Records(s, before)
    ensures Records(Run(s, ops), before + ops)
    decreases |ops|
  {
    hide Records, Apply;
    if ops == [] {
      assert before + ops == before;
    } else {
      ApplyRecords(s, before, ops[0]);
      RunRecords(Apply(s, ops[0]), before + [ops[0]], ops[1..]);
      assert before + [ops[0]] + ops[1..] == before + ops;
    }
  }

  /** Over every run of operations: a connection is live, a listener is there and a connection is subscribed to a
      thread exactly when the history says so. Removing the last listener of a pair parts it, also where the
      connection was subscribed on its own as well. */
  lemma SubscribersByHistory(ops: seq<Operation>, id: SubscriptionId, t: ThreadId, c: ConnectionId)
    ensures var s := Run(EMPTY, ops);
            && (c in s.live <==> LiveBy(ops, c))
            && (id in s.subscriptions && s.subscriptions[id] == Subscription(t, c) <==> ListensBy(ops, id, t, c))
            && (Linked(s, t, c) <==> PairedBy(ops, t, c))
            && (Indexed(s, t, c) <==> PairedBy(ops, t, c))
  {
    assert Records(EMPTY, []);
    RunRecords(EMPTY, [], ops);
    assert [] + ops == ops;
  }
}
