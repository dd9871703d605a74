/** `ThreadStateManager`: which connections are subscribed to which threads, kept in three maps that
    must agree. Every operation is one block under the manager's lock. */
module ThreadStateIndex {
  import opened Wrappers
  import opened Ids

  type SubscriptionId = string

  datatype Subscription = Subscription(thread: ThreadId, connection: ConnectionId)

  // ---------- The three maps ----------

  datatype Index = Index(
    live: set<ConnectionId>,
    threads: map<ThreadId, set<ConnectionId>>,
    subscriptions: map<SubscriptionId, Subscription>,
    threadsOf: map<ConnectionId, set<ThreadId>>)

  /** The connection is in the thread's entry. */
  predicate Linked(s: Index, t: ThreadId, c: ConnectionId) {
    t in s.threads && c in s.threads[t]
  }

  /** The thread is in the connection's entry. */
  predicate Indexed(s: Index, t: ThreadId, c: ConnectionId) {
    c in s.threadsOf && t in s.threadsOf[c]
  }

  /** The maps agree: both directions list the same pairs, no connection has an empty entry, and every
      subscription is backed by a pair. */
  ghost predicate Consistent(s: Index) {
    && (forall t, c :: Linked(s, t, c) <==> Indexed(s, t, c))
    && (forall c :: c in s.threadsOf ==> s.threadsOf[c] != {})
    && (forall id :: id in s.subscriptions ==> Linked(s, s.subscriptions[id].thread, s.subscriptions[id].connection))
  }

  // ---------- Operations ----------

  datatype Operation =
    | ConnectionInitialized(c: ConnectionId)
    | ThreadState(t: ThreadId)
    | RemoveListener(id: SubscriptionId)
    | RemoveThreadState(t: ThreadId)
    | Unsubscribe(t: ThreadId, c: ConnectionId)
    | SetListener(id: SubscriptionId, t: ThreadId, c: ConnectionId)
    | TryEnsureSubscribed(t: ThreadId, c: ConnectionId)
    | TryAddConnection(t: ThreadId, c: ConnectionId)
    | RemoveConnection(c: ConnectionId)

  function Members<K, V>(m: map<K, set<V>>, k: K): set<V> {
    if k in m then m[k] else {}
  }

  function Link(s: Index, t: ThreadId, c: ConnectionId): Index {
    s.(threadsOf := s.threadsOf[c := Members(s.threadsOf, c) + {t}],
       threads := s.threads[t := Members(s.threads, t) + {c}])
  }

  /** The pair goes; a connection whose last thread goes loses its entry, a thread keeps an empty one. */
  function Unlink(s: Index, t: ThreadId, c: ConnectionId): Index {
    var rest := Members(s.threadsOf, c) - {t};
    s.(threadsOf := if c !in s.threadsOf then s.threadsOf
                    else if rest == {} then s.threadsOf - {c}
                    else s.threadsOf[c := rest],
       threads := if t in s.threads then s.threads[t := s.threads[t] - {c}] else s.threads)
  }

  predicate SubscribedOtherwise(s: Index, id: SubscriptionId, sub: Subscription) {
    exists other :: other in s.subscriptions && other != id && s.subscriptions[other] == sub
  }

  function Apply(s: Index, op: Operation): Index {
    match op
    case ConnectionInitialized(c) => s.(live := s.live + {c})
    case ThreadState(t) => s.(threads := s.threads[t := Members(s.threads, t)])
    case RemoveListener(id) =>
      if id !in s.subscriptions then s
      else
        var sub := s.subscriptions[id];
        var without := s.(subscriptions := s.subscriptions - {id});
        if SubscribedOtherwise(s, id, sub) then without else Unlink(without, sub.thread, sub.connection)
    case RemoveThreadState(t) =>
      s.(threads := s.threads - {t},
         subscriptions := map id | id in s.subscriptions && s.subscriptions[id].thread != t :: s.subscriptions[id],
         threadsOf := map c | c in s.threadsOf && s.threadsOf[c] - {t} != {} :: s.threadsOf[c] - {t})
    case Unsubscribe(t, c) =>
      if t !in s.threads || !Indexed(s, t, c) then s
      else
        Unlink(s, t, c).(subscriptions :=
          map id | id in s.subscriptions && s.subscriptions[id] != Subscription(t, c) :: s.subscriptions[id])
    case SetListener(id, t, c) => Link(s.(subscriptions := s.subscriptions[id := Subscription(t, c)]), t, c)
    case TryEnsureSubscribed(t, c) => if c in s.live then Link(s, t, c) else s
    case TryAddConnection(t, c) => if c in s.live then Link(s, t, c) else s
    case RemoveConnection(c) =>
      Index(s.live - {c},
            map t | t in s.threads :: if t in Members(s.threadsOf, c) then s.threads[t] - {c} else s.threads[t],
            map id | id in s.subscriptions && s.subscriptions[id].connection != c :: s.subscriptions[id],
            s.threadsOf - {c})
  }

  function Run(s: Index, ops: seq<Operation>): Index
    decreases |ops|
  {
    if ops == [] then s else Run(Apply(s, ops[0]), ops[1..])
  }

  const EMPTY := Index({}, map[], map[], map[])

  // ---------- Consistency over every run ----------

  lemma LinkFacts(s: Index, t: ThreadId, c: ConnectionId)
    ensures var r := Link(s, t, c);
            && (forall t', c' :: Linked(r, t', c') <==> Linked(s, t', c') || (t' == t && c' == c))
            && (forall t', c' :: Indexed(r, t', c') <==> Indexed(s, t', c') || (t' == t && c' == c))
            && (forall c' :: c' in r.threadsOf <==> c' in s.threadsOf || c' == c)
            && r.threadsOf[c] != {}
            && (forall c' :: c' in s.threadsOf && c' != c ==> r.threadsOf[c'] == s.threadsOf[c'])
            && r.live == s.live && r.subscriptions == s.subscriptions
  {
    assert t in Link(s, t, c).threadsOf[c];
  }

  lemma UnlinkFacts(s: Index, t: ThreadId, c: ConnectionId)
    ensures var r := Unlink(s, t, c);
            && (forall t', c' :: Linked(r, t', c') <==> Linked(s, t', c') && !(t' == t && c' == c))
            && (forall t', c' :: Indexed(r, t', c') <==> Indexed(s, t', c') && !(t' == t && c' == c))
            && (forall c' :: c' in r.threadsOf && c' != c ==> c' in s.threadsOf && r.threadsOf[c'] == s.threadsOf[c'])
            && (c in r.threadsOf ==> r.threadsOf[c] != {})
            && r.live == s.live && r.subscriptions == s.subscriptions
  {
    var r := Unlink(s, t, c);
    forall t', c'
      ensures Indexed(r, t', c') <==> Indexed(s, t', c') && !(t' == t && c' == c)
    {
      if c' == c && c in s.threadsOf {
        assert t' in s.threadsOf[c] - {t} <==> t' in s.threadsOf[c] && t' != t;
      }
    }
  }

  lemma RemoveThreadConsistent(s: Index, t: ThreadId)
    requires Consistent(s)
    ensures Consistent(Apply(s, RemoveThreadState(t)))
  {
    var r := Apply(s, RemoveThreadState(t));
    forall t', c
      ensures Indexed(r, t', c) <==> Indexed(s, t', c) && t' != t
    {
      if c in s.threadsOf {
        assert t' in s.threadsOf[c] - {t} <==> t' in s.threadsOf[c] && t' != t;
      }
    }
    forall t', c
      ensures Linked(r, t', c) <==> Linked(s, t', c) && t' != t
    {
    }
  }

  lemma RemoveConnectionConsistent(s: Index, c: ConnectionId)
    requires Consistent(s)
    ensures Consistent(Apply(s, RemoveConnection(c)))
  {
    var r := Apply(s, RemoveConnection(c));
    forall t, c'
      ensures Linked(r, t, c') <==> Linked(s, t, c') && c' != c
    {
      assert Linked(s, t, c) <==> t in Members(s.threadsOf, c) by {
        assert Linked(s, t, c) <==> Indexed(s, t, c);
      }
    }
    forall t, c'
      ensures Indexed(r, t, c') <==> Indexed(s, t, c') && c' != c
    {
    }
  }

  lemma UnlinkConsistent(s: Index, t: ThreadId, c: ConnectionId)
    requires Consistent(s)
    requires forall id :: id in s.subscriptions ==> s.subscriptions[id] != Subscription(t, c)
    ensures Consistent(Unlink(s, t, c))
  {
    UnlinkFacts(s, t, c);
    hide Unlink, Linked, Indexed;
    forall id | id in s.subscriptions
      ensures s.subscriptions[id].thread != t || s.subscriptions[id].connection != c
    {
      var sub := s.subscriptions[id];
      assert sub == Subscription(sub.thread, sub.connection);
    }
  }

  lemma LinkConsistent(s: Index, t: ThreadId, c: ConnectionId)
    requires Consistent(s)
    ensures Consistent(Link(s, t, c))
  {
    LinkFacts(s, t, c);
    hide Link, Linked, Indexed;
  }

  lemma FewerSubscriptionsConsistent(s: Index, kept: map<SubscriptionId, Subscription>)
    requires Consistent(s)
    requires forall id :: id in kept ==> id in s.subscriptions && kept[id] == s.subscriptions[id]
    ensures Consistent(s.(subscriptions := kept))
  {
    var r := s.(subscriptions := kept);
    assert forall t, c :: Linked(r, t, c) == Linked(s, t, c) && Indexed(r, t, c) == Indexed(s, t, c);
  }

  lemma SetListenerConsistent(s: Index, id: SubscriptionId, t: ThreadId, c: ConnectionId)
    requires Consistent(s)
    ensures Consistent(Apply(s, SetListener(id, t, c)))
  {
    var subs := s.subscriptions[id := Subscription(t, c)];
    var linked := Link(s, t, c);
    LinkConsistent(s, t, c);
    LinkFacts(s, t, c);
    var r := Apply(s, SetListener(id, t, c));
    assert r == linked.(subscriptions := subs);
    assert forall t', c' :: Linked(r, t', c') == Linked(linked, t', c')
                            && Indexed(r, t', c') == Indexed(linked, t', c');
  }

  lemma UnlistenConsistent(s: Index, kept: map<SubscriptionId, Subscription>, t: ThreadId, c: ConnectionId)
    requires Consistent(s)
    requires forall id :: id in kept ==> id in s.subscriptions && kept[id] == s.subscriptions[id]
    requires forall id :: id in kept ==> kept[id] != Subscription(t, c)
    ensures Consistent(Unlink(s.(subscriptions := kept), t, c))
  {
    hide Consistent, Unlink;
    FewerSubscriptionsConsistent(s, kept);
    UnlinkConsistent(s.(subscriptions := kept), t, c);
  }

  lemma ApplyConsistent(s: Index, op: Operation)
    requires Consistent(s)
    ensures Consistent(Apply(s, op))
  {
    match op
    case ConnectionInitialized(c) =>
      var r := Apply(s, op);
      assert forall t, c' :: Linked(r, t, c') == Linked(s, t, c') && Indexed(r, t, c') == Indexed(s, t, c');
    case ThreadState(t) =>
      var r := Apply(s, op);
      assert forall t', c' :: Linked(r, t', c') == Linked(s, t', c') && Indexed(r, t', c') == Indexed(s, t', c');
    case RemoveListener(id) =>
      if id in s.subscriptions {
        hide Consistent, Unlink;
        var sub := s.subscriptions[id];
        if SubscribedOtherwise(s, id, sub) {
          FewerSubscriptionsConsistent(s, s.subscriptions - {id});
        } else {
          assert forall other :: other in s.subscriptions - {id} ==> other in s.subscriptions && other != id;
          UnlistenConsistent(s, s.subscriptions - {id}, sub.thread, sub.connection);
        }
      }
    case RemoveThreadState(t) => RemoveThreadConsistent(s, t);
    case Unsubscribe(t, c) =>
      var kept := map id | id in s.subscriptions && s.subscriptions[id] != Subscription(t, c) :: s.subscriptions[id];
      assert Unlink(s, t, c).(subscriptions := kept) == Unlink(s.(subscriptions := kept), t, c);
      hide Consistent, Unlink;
      UnlistenConsistent(s, kept, t, c);
    case SetListener(id, t, c) => SetListenerConsistent(s, id, t, c);
    case TryEnsureSubscribed(t, c) => LinkConsistent(s, t, c);
    case TryAddConnection(t, c) => LinkConsistent(s, t, c);
    case RemoveConnection(c) => RemoveConnectionConsistent(s, c);
  }

  lemma {:induction false} RunConsistent(s: Index, ops: seq<Operation>)
    requires Consistent(s)
    ensures Consistent(Run(s, ops))
    decreases |ops|
  {
    hide Consistent, Apply;
    if ops == [] {
    } else {
      ApplyConsistent(s, ops[0]);
      RunConsistent(Apply(s, ops[0]), ops[1..]);
    }
  }

  /** In every reachable state the maps agree. */
  lemma ReachableConsistent(ops: seq<Operation>)
    ensures Consistent(Run(EMPTY, ops))
  {
    assert Consistent(EMPTY);
    RunConsistent(EMPTY, ops);
  }

  // ---------- A removed connection stays away ----------

  /** The connection is in none of the maps. */
  ghost predicate Absent(s: Index, c: ConnectionId) {
    && c !in s.live
    && c !in s.threadsOf
    && (forall t :: t in s.threads ==> c !in s.threads[t])
    && (forall id :: id in s.subscriptions ==> s.subscriptions[id].connection != c)
  }

  lemma RemovedIsAbsent(s: Index, c: ConnectionId)
    requires Consistent(s)
    ensures Absent(Apply(s, RemoveConnection(c)), c)
  {
    var r := Apply(s, RemoveConnection(c));
    forall t | t in r.threads
      ensures c !in r.threads[t]
    {
      assert Linked(s, t, c) <==> Indexed(s, t, c);
    }
  }

  /** Only initializing the connection, or setting a listener for it, brings a connection back. */
  predicate BringsBack(op: Operation, c: ConnectionId) {
    (op.ConnectionInitialized? || op.SetListener?) && op.c == c
  }

  /** From a state without `c`, one operation leads to a state without `c` exactly when it is none of
      the two that name it unconditionally; `set_listener` does not ask whether `c` is live. */
  lemma AbsentUnlessBroughtBack(s: Index, op: Operation, c: ConnectionId)
    requires Absent(s, c)
    ensures Absent(Apply(s, op), c) <==> !BringsBack(op, c)
  {
    var r := Apply(s, op);
    match op
    case ConnectionInitialized(d) =>
    case ThreadState(t) =>
    case RemoveListener(id) =>
    case RemoveThreadState(t) =>
    case Unsubscribe(t, d) =>
    case SetListener(id, t, d) =>
      if d == c {
        assert c in r.threadsOf;
      }
    case TryEnsureSubscribed(t, d) =>
    case TryAddConnection(t, d) =>
    case RemoveConnection(d) =>
  }

  /** After a connection is removed, no run of operations that does neither brings it back, in
      particular none of the `try_` operations. */
  lemma {:induction false} StaysAbsent(s: Index, ops: seq<Operation>, c: ConnectionId)
    requires Absent(s, c)
    requires forall i :: 0 <= i < |ops| ==> !BringsBack(ops[i], c)
    ensures Absent(Run(s, ops), c)
    decreases |ops|
  {
    hide Absent, Apply, BringsBack;
    if ops == [] {
    } else {
      AbsentUnlessBroughtBack(s, ops[0], c);
      assert forall i :: 0 <= i < |ops| - 1 ==> ops[1..][i] == ops[i + 1];
      StaysAbsent(Apply(s, ops[0]), ops[1..], c);
    }
  }

  lemma RemovedStaysAbsent(before: seq<Operation>, c: ConnectionId, after: seq<Operation>)
    requires forall i :: 0 <= i < |after| ==> !BringsBack(after[i], c)
    ensures Absent(Run(Apply(Run(EMPTY, before), RemoveConnection(c)), after), c)
  {
    ReachableConsistent(before);
    RemovedIsAbsent(Run(EMPTY, before), c);
    StaysAbsent(Apply(Run(EMPTY, before), RemoveConnection(c)), after, c);
  }

  // ---------- What an operation leaves alone ----------

  /** The pairs an operation may add or remove. */
  predicate Concerns(s: Index, op: Operation, t: ThreadId, c: ConnectionId) {
    match op
    case ConnectionInitialized(_) => false
    case ThreadState(_) => false
    case RemoveListener(id) => id in s.subscriptions && s.subscriptions[id] == Subscription(t, c)
    case RemoveThreadState(t') => t == t'
    case Unsubscribe(t', c') => t == t' && c == c'
    case SetListener(_, t', c') => t == t' && c == c'
    case TryEnsureSubscribed(t', c') => t == t' && c == c'
    case TryAddConnection(t', c') => t == t' && c == c'
    case RemoveConnection(c') => c == c'
  }

  /** Every other subscription pair survives. */
  lemma OtherPairsUnaffected(s: Index, op: Operation, t: ThreadId, c: ConnectionId)
    requires Consistent(s) && !Concerns(s, op, t, c)
    ensures Linked(Apply(s, op), t, c) <==> Linked(s, t, c)
  {
    match op
    case ConnectionInitialized(_) =>
    case ThreadState(_) =>
    case RemoveListener(id) =>
      if id in s.subscriptions {
        var sub := s.subscriptions[id];
        assert sub == Subscription(sub.thread, sub.connection);
        UnlinkFacts(s.(subscriptions := s.subscriptions - {id}), sub.thread, sub.connection);
      }
    case RemoveThreadState(_) =>
    case Unsubscribe(t', c') => UnlinkFacts(s, t', c');
    case SetListener(id, t', c') => LinkFacts(s, t', c');
    case TryEnsureSubscribed(t', c') => LinkFacts(s, t', c');
    case TryAddConnection(t', c') => LinkFacts(s, t', c');
    case RemoveConnection(_) =>
  }

  // ---------- The object ----------

  /** The threads' entries once `c` has been taken out of some of them. */
  function Dropped(threads: map<ThreadId, set<ConnectionId>>, some: set<ThreadId>, c: ConnectionId)
    : map<ThreadId, set<ConnectionId>>
  {
    map t | t in threads :: if t in some then threads[t] - {c} else threads[t]
  }

  lemma DropOne(threads: map<ThreadId, set<ConnectionId>>, all: set<ThreadId>, rest: set<ThreadId>, c: ConnectionId,
                t: ThreadId, before: map<ThreadId, set<ConnectionId>>)
    requires t in rest && rest <= all && before == Dropped(threads, all - rest, c)
    ensures Dropped(threads, all - (rest - {t}), c) ==
            if t in before then before[t := before[t] - {c}] else before
  {
  }

  class ThreadStateManager {
    var liveConnections: set<ConnectionId>
    var threads: map<ThreadId, set<ConnectionId>>
    var subscriptionStateById: map<SubscriptionId, Subscription>
    var threadIdsByConnection: map<ConnectionId, set<ThreadId>>

    function View(): Index
      reads this
    {
      Index(liveConnections, threads, subscriptionStateById, threadIdsByConnection)
    }

    constructor ()
      ensures View() == EMPTY
    {
      liveConnections, threads, subscriptionStateById, threadIdsByConnection := {}, map[], map[], map[];
    }

    method ConnectionInitialized(c: ConnectionId)
      modifies this
      ensures View() == Apply(old(View()), Operation.ConnectionInitialized(c))
    {
      liveConnections := liveConnections + {c};
    }

    /** The subscribers of a thread are the connections that list it. */
    method SubscribedConnectionIds(t: ThreadId) returns (connections: set<ConnectionId>)
      requires Consistent(View())
      ensures forall c :: c in connections <==> Indexed(View(), t, c)
    {
      connections := if t in threads then threads[t] else {};
      assert forall c :: Linked(View(), t, c) <==> Indexed(View(), t, c);
    }

    method HasSubscribers(t: ThreadId) returns (subscribed: bool)
      requires Consistent(View())
      ensures subscribed <==> exists c :: Indexed(View(), t, c)
    {
      subscribed := t in threads && threads[t] != {};
      assert forall c :: Linked(View(), t, c) <==> Indexed(View(), t, c);
      if subscribed {
        var c :| c in threads[t];
        assert Linked(View(), t, c);
      }
    }

    method GetThreadState(t: ThreadId)
      modifies this
      ensures View() == Apply(old(View()), ThreadState(t))
    {
      if t !in threads {
        threads := threads[t := {}];
      } else {
        assert threads == threads[t := threads[t]];
      }
    }

    method RemoveListener(id: SubscriptionId) returns (thread: Option<ThreadId>)
      modifies this
      ensures View() == Apply(old(View()), Operation.RemoveListener(id))
      ensures thread == if id in old(subscriptionStateById) then Some(old(subscriptionStateById)[id].thread) else None
    {
      if id !in subscriptionStateById {
        return None;
      }
      var sub := subscriptionStateById[id];
      subscriptionStateById := subscriptionStateById - {id};
      var still := exists other :: other in subscriptionStateById && subscriptionStateById[other] == sub;
      ghost var before := old(subscriptionStateById);
      if still {
        var other :| other in subscriptionStateById && subscriptionStateById[other] == sub;
        assert other in before && other != id && before[other] == sub;
      } else {
        forall other | other in before && other != id
          ensures before[other] != sub
        {
          assert other in subscriptionStateById;
        }
      }
      if !still {
        var removeConnectionEntry := false;
        if sub.connection in threadIdsByConnection {
          var threadIds := threadIdsByConnection[sub.connection] - {sub.thread};
          threadIdsByConnection := threadIdsByConnection[sub.connection := threadIds];
          removeConnectionEntry := threadIds == {};
        }
        if removeConnectionEntry {
          threadIdsByConnection := threadIdsByConnection - {sub.connection};
          assert threadIdsByConnection == old(threadIdsByConnection) - {sub.connection};
        }
        if sub.thread in threads {
          threads := threads[sub.thread := threads[sub.thread] - {sub.connection}];
        }
      }
      return Some(sub.thread);
    }

    method RemoveThreadState(t: ThreadId)
      modifies this
      ensures View() == Apply(old(View()), Operation.RemoveThreadState(t))
    {
      threads := threads - {t};
      subscriptionStateById :=
        map id | id in subscriptionStateById && subscriptionStateById[id].thread != t :: subscriptionStateById[id];
      threadIdsByConnection :=
        map c | c in threadIdsByConnection && threadIdsByConnection[c] - {t} != {} :: threadIdsByConnection[c] - {t};
    }

    method UnsubscribeConnectionFromThread(t: ThreadId, c: ConnectionId) returns (unsubscribed: bool)
      modifies this
      ensures View() == Apply(old(View()), Unsubscribe(t, c))
      ensures unsubscribed == (t in old(threads) && Indexed(old(View()), t, c))
    {
      if t !in threads {
        return false;
      }
      if !(c in threadIdsByConnection && t in threadIdsByConnection[c]) {
        return false;
      }
      var threadIds := threadIdsByConnection[c] - {t};
      threadIdsByConnection :=
        if threadIds == {} then threadIdsByConnection - {c} else threadIdsByConnection[c := threadIds];
      threads := threads[t := threads[t] - {c}];
      subscriptionStateById :=
        map id | id in subscriptionStateById && subscriptionStateById[id] != Subscription(t, c)
            :: subscriptionStateById[id];
      return true;
    }

    method SetListener(id: SubscriptionId, t: ThreadId, c: ConnectionId)
      modifies this
      ensures View() == Apply(old(View()), Operation.SetListener(id, t, c))
    {
      subscriptionStateById := subscriptionStateById[id := Subscription(t, c)];
      threadIdsByConnection := threadIdsByConnection[c := Members(threadIdsByConnection, c) + {t}];
      threads := threads[t := Members(threads, t) + {c}];
    }

    method TryEnsureConnectionSubscribed(t: ThreadId, c: ConnectionId) returns (subscribed: bool)
      modifies this
      ensures View() == Apply(old(View()), TryEnsureSubscribed(t, c))
      ensures subscribed == (c in old(liveConnections))
    {
      if c !in liveConnections {
        return false;
      }
      threadIdsByConnection := threadIdsByConnection[c := Members(threadIdsByConnection, c) + {t}];
      threads := threads[t := Members(threads, t) + {c}];
      return true;
    }

    method TryAddConnectionToThread(t: ThreadId, c: ConnectionId) returns (added: bool)
      modifies this
      ensures View() == Apply(old(View()), TryAddConnection(t, c))
      ensures added == (c in old(liveConnections))
    {
      added := TryEnsureConnectionSubscribed(t, c);
    }

    /** The threads the connection was on are visited one by one. */
    method RemoveConnection(c: ConnectionId)
      modifies this
      ensures View() == Apply(old(View()), Operation.RemoveConnection(c))
    {
      liveConnections := liveConnections - {c};
      var threadIds := Members(threadIdsByConnection, c);
      threadIdsByConnection := threadIdsByConnection - {c};
      subscriptionStateById :=
        map id | id in subscriptionStateById && subscriptionStateById[id].connection != c :: subscriptionStateById[id];
      ghost var subscriptions := subscriptionStateById;
      var rest := threadIds;
      while rest != {}
        invariant rest <= threadIds
        invariant threads == Dropped(old(threads), threadIds - rest, c)
        invariant liveConnections == old(liveConnections) - {c} && subscriptionStateById == subscriptions
        invariant threadIdsByConnection == old(threadIdsByConnection) - {c}
        decreases rest
      {
        var t :| t in rest;
        ghost var before := threads;
        if t in threads {
          threads := threads[t := threads[t] - {c}];
        }
        DropOne(old(threads), threadIds, rest, c, t, before);
        rest := rest - {t};
      }
    }
  }
}
