/** `OutgoingMessageSender`: requests from the server to its clients, and the table of callbacks that
    wait for an answer. Each block that holds the table's lock is one step. */
module Outgoing {
  import opened Wrappers
  import opened Ids
  import opened Sorting

  datatype RequestId = IntegerId(value: int) | StringId(text: string)

  /** A JSON-RPC error: its code and the string under "reason" in its data, if there is one. */
  datatype RpcError = RpcError(code: int, message: string, reason: Option<string>)

  /** A table entry: the thread the request belongs to and the request itself. */
  datatype Entry<R> = Entry(thread: Option<ThreadId>, request: R)

  /** How a callback is resolved: a reply, an error from the client, a cancellation (which sends its
      error, if any, to the callback), or a request that could not be sent. */
  datatype Outcome<A> =
    | Answered(answer: A)
    | Errored(error: RpcError)
    | Cancelled(reason: Option<RpcError>)
    | SendFailed

  // ---------- Request ids ----------

  const TWO_63: int := 0x8000_0000_0000_0000
  const TWO_64: int := 0x1_0000_0000_0000_0000

  /** `fetch_add` on a 64-bit counter wraps around. */
  function NextId(id: int): int {
    if id == TWO_63 - 1 then -TWO_63 else id + 1
  }

  /** The id handed out after `k` others. */
  function IdAt(k: nat): int {
    (k + TWO_63) % TWO_64 - TWO_63
  }

  lemma ModUnique(m: nat, q: nat, r: nat)
    requires m == q * TWO_64 + r && r < TWO_64
    ensures m % TWO_64 == r
  {
  }

  lemma IdAtSteps(k: nat)
    ensures IdAt(0) == 0
    ensures IdAt(k + 1) == NextId(IdAt(k))
    ensures -TWO_63 <= IdAt(k) < TWO_63
  {
    var m := k + TWO_63;
    var q, r := m / TWO_64, m % TWO_64;
    assert m == q * TWO_64 + r;
    if r + 1 < TWO_64 {
      ModUnique(m + 1, q, r + 1);
    } else {
      ModUnique(m + 1, q + 1, 0);
    }
  }

  lemma IdAtDistinct(j: nat, k: nat)
    requires j < k < j + TWO_64
    ensures IdAt(j) != IdAt(k)
  {
    var a, b := j + TWO_63, k + TWO_63;
    assert a == (a / TWO_64) * TWO_64 + a % TWO_64;
    assert b == (b / TWO_64) * TWO_64 + b % TWO_64;
  }

  /** The first `n` ids are pairwise distinct exactly when the counter has not gone full circle. */
  lemma IdsDistinctIffNoWrap(n: nat)
    ensures (forall j, k :: 0 <= j < k < n ==> IdAt(j) != IdAt(k)) <==> n <= TWO_64
  {
    if n <= TWO_64 {
      forall j, k | 0 <= j < k < n
        ensures IdAt(j) != IdAt(k)
      {
        IdAtDistinct(j, k);
      }
    } else {
      ModUnique(TWO_63 + TWO_64, 1, TWO_63);
      assert IdAt(0) == IdAt(TWO_64);
    }
  }

  // ---------- The table as a state machine ----------

  /** `count` ids were handed out; those in `unregistered` are not in the table yet. `outcomes` records
      every resolution of every id, so that a second one would show. */
  datatype State<R, A> = State(
    count: nat,
    unregistered: set<RequestId>,
    pending: map<RequestId, Entry<R>>,
    outcomes: map<RequestId, seq<Outcome<A>>>)

  datatype Action<R, A> =
    | Issue
    | Register(id: RequestId, thread: Option<ThreadId>, request: R)
    | FailSend(id: RequestId)
    | Reply(requestId: RequestId, answer: A)
    | ReplyError(requestId: RequestId, error: RpcError)
    | Cancel(requestId: RequestId)
    | CancelThread(threadId: ThreadId, reason: Option<RpcError>)

  function Initial<R, A>(): State<R, A> {
    State(0, {}, map[], map[])
  }

  function Record<A>(outcomes: map<RequestId, seq<Outcome<A>>>, ids: set<RequestId>, outcome: Outcome<A>)
    : map<RequestId, seq<Outcome<A>>>
  {
    map id | id in outcomes.Keys + ids ::
      (if id in outcomes then outcomes[id] else []) + (if id in ids then [outcome] else [])
  }

  /** The entries of `ids` leave the table with the given outcome; other ids are not affected. */
  function Resolve<R, A>(s: State<R, A>, ids: set<RequestId>, outcome: Outcome<A>): State<R, A> {
    s.(pending := s.pending - ids, outcomes := Record(s.outcomes, ids * s.pending.Keys, outcome))
  }

  function OfThread<R>(pending: map<RequestId, Entry<R>>, threadId: ThreadId): set<RequestId> {
    set id | id in pending && pending[id].thread == Some(threadId)
  }

  function Step<R, A>(s: State<R, A>, action: Action<R, A>): State<R, A> {
    match action
    case Issue => s.(count := s.count + 1, unregistered := s.unregistered + {IntegerId(IdAt(s.count))})
    case Register(id, thread, request) =>
      if id in s.unregistered then
        s.(unregistered := s.unregistered - {id}, pending := s.pending[id := Entry(thread, request)])
      else s
    case FailSend(id) => Resolve(s, {id}, SendFailed)
    case Reply(requestId, answer) => Resolve(s, {requestId}, Answered(answer))
    case ReplyError(requestId, error) => Resolve(s, {requestId}, Errored(error))
    case Cancel(requestId) => Resolve(s, {requestId}, Cancelled(None))
    case CancelThread(threadId, reason) => Resolve(s, OfThread(s.pending, threadId), Cancelled(reason))
  }

  function Run<R, A>(s: State<R, A>, actions: seq<Action<R, A>>): State<R, A>
    decreases |actions|
  {
    if actions == [] then s else Run(Step(s, actions[0]), actions[1..])
  }

  // ---------- Every request is resolved at most once ----------

  ghost predicate Issued<R, A>(s: State<R, A>, id: RequestId) {
    exists k :: 0 <= k < s.count && IntegerId(IdAt(k)) == id
  }

  /** Every id handed out is in exactly one place: waiting to be registered, pending, or resolved, and
      a resolved one has exactly one outcome. Nothing else is anywhere. */
  ghost predicate Accounted<R, A>(s: State<R, A>) {
    && s.unregistered !! s.pending.Keys
    && s.unregistered !! s.outcomes.Keys
    && s.pending.Keys !! s.outcomes.Keys
    && (forall id :: id in s.unregistered + s.pending.Keys + s.outcomes.Keys <==> Issued(s, id))
    && (forall id :: id in s.outcomes ==> |s.outcomes[id]| == 1)
  }

  lemma IssueAccounted<R, A>(s: State<R, A>)
    requires Accounted(s) && s.count < TWO_64
    ensures Accounted(Step(s, Issue))
  {
    var newId := IntegerId(IdAt(s.count));
    var next := Step(s, Issue);
    assert !Issued(s, newId) by {
      forall k | 0 <= k < s.count
        ensures IntegerId(IdAt(k)) != newId
      {
        IdAtDistinct(k, s.count);
      }
    }
    forall id
      ensures Issued(next, id) <==> Issued(s, id) || id == newId
    {
      if Issued(s, id) {
        var k :| 0 <= k < s.count && IntegerId(IdAt(k)) == id;
        assert 0 <= k < next.count && IntegerId(IdAt(k)) == id;
      }
      assert 0 <= s.count < next.count && IntegerId(IdAt(s.count)) == newId;
    }
    assert newId !in s.unregistered + s.pending.Keys + s.outcomes.Keys;
  }

  lemma ResolveAccounted<R, A>(s: State<R, A>, ids: set<RequestId>, outcome: Outcome<A>)
    requires Accounted(s)
    ensures Accounted(Resolve(s, ids, outcome))
  {
    var next := Resolve(s, ids, outcome);
    forall id
      ensures Issued(next, id) <==> Issued(s, id)
    {
      if Issued(s, id) {
        var k :| 0 <= k < s.count && IntegerId(IdAt(k)) == id;
        assert 0 <= k < next.count && IntegerId(IdAt(k)) == id;
      }
    }
    assert next.pending.Keys == s.pending.Keys - ids;
    assert next.outcomes.Keys == s.outcomes.Keys + ids * s.pending.Keys;
  }

  lemma StepAccounted<R, A>(s: State<R, A>, action: Action<R, A>)
    requires Accounted(s)
    requires Step(s, action).count <= TWO_64
    ensures Accounted(Step(s, action))
  {
    match action
    case Issue => IssueAccounted(s);
    case Register(id, thread, request) =>
      var next := Step(s, action);
      forall other
        ensures Issued(next, other) <==> Issued(s, other)
      {
        if Issued(s, other) {
          var k :| 0 <= k < s.count && IntegerId(IdAt(k)) == other;
          assert 0 <= k < next.count && IntegerId(IdAt(k)) == other;
        }
      }
    case FailSend(id) => ResolveAccounted(s, {id}, SendFailed);
    case Reply(requestId, answer) => ResolveAccounted(s, {requestId}, Answered(answer));
    case ReplyError(requestId, error) => ResolveAccounted(s, {requestId}, Errored(error));
    case Cancel(requestId) => ResolveAccounted(s, {requestId}, Cancelled(None));
    case CancelThread(threadId, reason) => ResolveAccounted(s, OfThread(s.pending, threadId), Cancelled(reason));
  }

  lemma CountGrows<R, A>(s: State<R, A>, action: Action<R, A>)
    ensures s.count <= Step(s, action).count <= s.count + 1
  {
  }

  lemma {:induction false} RunGrows<R, A>(s: State<R, A>, actions: seq<Action<R, A>>)
    ensures s.count <= Run(s, actions).count
    decreases |actions|
  {
    if actions == [] {
    } else {
      CountGrows(s, actions[0]);
      RunGrows(Step(s, actions[0]), actions[1..]);
    }
  }

  lemma {:induction false} RunAccounted<R, A>(s: State<R, A>, actions: seq<Action<R, A>>)
    requires Accounted(s) && Run(s, actions).count <= TWO_64
    ensures Accounted(Run(s, actions))
    decreases |actions|
  {
    hide Accounted, Step;
    if actions == [] {
    } else {
      RunGrows(Step(s, actions[0]), actions[1..]);
      StepAccounted(s, actions[0]);
      RunAccounted(Step(s, actions[0]), actions[1..]);
    }
  }

  /** Over every run that hands out at most 2^64 ids: whatever was issued is unregistered, pending or
      resolved, in exactly one of these ways, and no request is ever resolved twice. */
  lemma ResolvedAtMostOnce<R, A>(actions: seq<Action<R, A>>)
    requires Run(Initial<R, A>(), actions).count <= TWO_64
    ensures Accounted(Run(Initial<R, A>(), actions))
  {
    assert Accounted(Initial<R, A>());
    RunAccounted(Initial<R, A>(), actions);
  }

  /** A reply, error or cancellation for an id that is not pending (a second reply to a broadcast, a
      stale or an invented id) changes nothing. */
  lemma StaleReplyChangesNothing<R, A>(s: State<R, A>, requestId: RequestId, answer: A, error: RpcError)
    requires requestId !in s.pending
    ensures Step(s, Reply(requestId, answer)) == s
    ensures Step(s, ReplyError(requestId, error)) == s
    ensures Step(s, Cancel(requestId)) == s
  {
    var none: set<RequestId> := {requestId} * s.pending.Keys;
    assert none == {};
    assert s.pending - {requestId} == s.pending;
    forall outcome: Outcome<A>
      ensures Record(s.outcomes, none, outcome) == s.outcomes
    {
      assert forall id :: id in s.outcomes ==> s.outcomes[id] + [] == s.outcomes[id];
    }
  }

  /** What is resolved stays resolved the same way. */
  lemma {:induction false} OutcomesAreFinal<R, A>(s: State<R, A>, actions: seq<Action<R, A>>, id: RequestId)
    requires Accounted(s) && Run(s, actions).count <= TWO_64
    requires id in s.outcomes
    ensures id in Run(s, actions).outcomes && Run(s, actions).outcomes[id] == s.outcomes[id]
    ensures id !in Run(s, actions).pending
    decreases |actions|
  {
    if actions == [] {
    } else {
      var next := Step(s, actions[0]);
      RunGrows(next, actions[1..]);
      StepAccounted(s, actions[0]);
      assert id in next.outcomes && next.outcomes[id] == s.outcomes[id] by {
        assert id !in s.pending;
        assert s.outcomes[id] + [] == s.outcomes[id];
      }
      hide Accounted, Step;
      OutcomesAreFinal(next, actions[1..], id);
    }
  }

  /** Cancelling for a thread removes exactly that thread's requests and leaves every other entry. */
  lemma CancelThreadIsExact<R, A>(s: State<R, A>, threadId: ThreadId, reason: Option<RpcError>)
    ensures var next := Step(s, CancelThread(threadId, reason));
            && OfThread(next.pending, threadId) == {}
            && (forall id :: id in next.pending <==> id in s.pending && s.pending[id].thread != Some(threadId))
            && (forall id :: id in next.pending ==> next.pending[id] == s.pending[id])
            && next.count == s.count && next.unregistered == s.unregistered
  {
  }

  // ---------- The object ----------

  /** The derived order of ids: strings come before integers. */
  predicate IdLeq(a: RequestId, b: RequestId) {
    match (a, b)
    case (IntegerId(x), IntegerId(y)) => x <= y
    case (IntegerId(_), StringId(_)) => false
    case (StringId(_), IntegerId(_)) => true
    case (StringId(x), StringId(y)) => StringLeq(x, y)
  }

  const BY_ID: (RequestId, RequestId) -> bool := (a: RequestId, b: RequestId) => IdLeq(a, b)

  lemma IdOrderIsTotal()
    ensures TotalPreorder(BY_ID)
  {
    forall a, b
      ensures BY_ID(a, b) || BY_ID(b, a)
    {
      if a.StringId? && b.StringId? {
        StringLeqTotal(a.text, b.text);
      }
    }
    forall a, b, c | BY_ID(a, b) && BY_ID(b, c)
      ensures BY_ID(a, c)
    {
      if a.StringId? && b.StringId? && c.StringId? {
        StringLeqTransitive(a.text, b.text, c.text);
      }
    }
  }

  /** No two ids in the list are the same. */
  predicate Distinct(ids: seq<RequestId>) {
    forall i, j :: 0 <= i < j < |ids| ==> ids[i] != ids[j]
  }

  lemma DistinctSnoc(ids: seq<RequestId>, id: RequestId)
    requires Distinct(ids) && id !in ids
    ensures Distinct(ids + [id])
  {
  }

  predicate Mentions<R>(requests: seq<(RequestId, R)>, id: RequestId) {
    exists i :: 0 <= i < |requests| && requests[i].0 == id
  }

  lemma OnlyOfThread<R>(pending: map<RequestId, Entry<R>>, threadId: ThreadId)
    ensures forall id :: id in OfThread(pending, threadId) <==> id in pending && pending[id].thread == Some(threadId)
  {
  }

  lemma DistinctByMembers(found: seq<RequestId>, sorted: seq<RequestId>)
    requires Distinct(found) && multiset(found) == multiset(sorted)
    ensures Distinct(sorted)
  {
    forall i, j | 0 <= i < j < |sorted|
      ensures sorted[i] != sorted[j]
    {
      SameMembers(found, sorted, sorted[i]);
      var k :| 0 <= k < |found| && found[k] == sorted[i];
      OnceInMultiset(found, k);
      if sorted[i] == sorted[j] {
        TwiceInMultiset(sorted, i, j);
        assert false;
      }
    }
  }

  lemma SortedIds(found: seq<RequestId>)
    requires Distinct(found)
    ensures var sorted := SortBy(BY_ID, found);
            && (forall id :: id in sorted <==> id in found)
            && Distinct(sorted)
            && (forall i, j :: 0 <= i < j < |sorted| ==> IdLeq(sorted[i], sorted[j]))
  {
    IdOrderIsTotal();
    SortMembers(BY_ID, found);
    SortSorted(BY_ID, found);
    hide SortBy;
    var sorted := SortBy(BY_ID, found);
    DistinctByMembers(found, sorted);
    forall id
      ensures id in sorted <==> id in found
    {
      SameMembers(sorted, found, id);
    }
    forall i, j | 0 <= i < j < |sorted|
      ensures IdLeq(sorted[i], sorted[j])
    {
      assert BY_ID(sorted[i], sorted[j]);
    }
  }

  class OutgoingMessageSender<R, A> {
    var nextServerRequestId: int
    var requestIdToCallback: map<RequestId, Entry<R>>
    /** What the callbacks were sent, and how many ids were handed out. */
    ghost var view: State<R, A>

    /** The fields are the part of the state that the program keeps. */
    ghost predicate Valid()
      reads this
    {
      nextServerRequestId == IdAt(view.count) && requestIdToCallback == view.pending
    }

    constructor ()
      ensures Valid() && view == Initial<R, A>()
    {
      nextServerRequestId := 0;
      requestIdToCallback := map[];
      view := Initial<R, A>();
      new;
      IdAtSteps(0);
    }

    /** `next_request_id`. */
    method NextRequestId() returns (id: RequestId)
      requires Valid()
      modifies this
      ensures Valid() && id == IntegerId(IdAt(old(view.count))) && view == Step(old(view), Issue)
    {
      IdAtSteps(view.count);
      id := IntegerId(nextServerRequestId);
      nextServerRequestId := NextId(nextServerRequestId);
      view := Step(view, Issue);
    }

    /** The first locked block of `send_request_to_connections`. */
    method InsertCallback(id: RequestId, thread: Option<ThreadId>, request: R)
      requires Valid() && id in view.unregistered
      modifies this
      ensures Valid() && view == Step(old(view), Register(id, thread, request))
    {
      requestIdToCallback := requestIdToCallback[id := Entry(thread, request)];
      view := Step(view, Register(id, thread, request));
    }

    /** `send_request_to_connections`: broadcast when no connections are named, otherwise one message
        per connection until the first failure. `accepts` says which sends the channel takes. */
    method SendRequest(connections: Option<seq<ConnectionId>>, request: R, thread: Option<ThreadId>,
                       accepts: ConnectionId -> bool, broadcastAccepted: bool)
      returns (id: RequestId, sent: seq<ConnectionId>)
      requires Valid() && Accounted(view) && view.count < TWO_64
      modifies this
      ensures Valid()
      ensures id == IntegerId(IdAt(old(view.count)))
      ensures var ok := match connections
                        case None => broadcastAccepted
                        case Some(cs) => forall c :: c in cs ==> accepts(c);
              var registered := Run(old(view), [Issue, Register(id, thread, request)]);
              view == if ok then registered else Step(registered, FailSend(id))
      ensures connections.Some? ==> sent <= connections.value && forall c :: c in sent ==> accepts(c)
    {
      ghost var before := view;
      id := NextRequestId();
      assert id in view.unregistered;
      InsertCallback(id, thread, request);
      assert view == Run(before, [Issue, Register(id, thread, request)]) by {
        var actions: seq<Action<R, A>> := [Issue, Register(id, thread, request)];
        assert actions[1..] == [Register(id, thread, request)] && actions[1..][1..] == [];
        assert Run(Step(before, Issue), [Register(id, thread, request)]) ==
               Run(Step(Step(before, Issue), Register(id, thread, request)), []);
      }
      ghost var registered := view;
      sent := [];
      var failed := false;
      if connections.None? {
        failed := !broadcastAccepted;
      } else {
        var cs := connections.value;
        var i := 0;
        while i < |cs| && !failed
          invariant 0 <= i <= |cs|
          invariant failed ==> i > 0 && !accepts(cs[i - 1]) && cs[i - 1] in cs
          invariant sent == if failed then cs[..i - 1] else cs[..i]
          invariant forall c :: c in sent ==> accepts(c)
        {
          if accepts(cs[i]) {
            sent := sent + [cs[i]];
          } else {
            failed := true;
          }
          i := i + 1;
        }
        assert !failed ==> sent == cs;
        assert failed <==> !forall c :: c in cs ==> accepts(c);
      }
      assert view == registered;
      if failed {
        requestIdToCallback := requestIdToCallback - {id};
        view := Step(view, FailSend(id));
      }
    }

    /** `take_request_callback`: the entry leaves the table, if it is there. */
    method TakeRequestCallback(requestId: RequestId, ghost outcome: Outcome<A>) returns (entry: Option<Entry<R>>)
      requires Valid()
      modifies this
      ensures Valid() && view == Resolve(old(view), {requestId}, outcome)
      ensures entry == if requestId in old(requestIdToCallback) then Some(old(requestIdToCallback)[requestId])
                       else None
    {
      entry := None;
      if requestId in requestIdToCallback {
        entry := Some(requestIdToCallback[requestId]);
        requestIdToCallback := requestIdToCallback - {requestId};
      }
      view := Resolve(view, {requestId}, outcome);
    }

    method NotifyClientResponse(requestId: RequestId, answer: A)
      requires Valid()
      modifies this
      ensures Valid() && view == Step(old(view), Reply(requestId, answer))
    {
      var _ := TakeRequestCallback(requestId, Answered(answer));
    }

    method NotifyClientError(requestId: RequestId, error: RpcError)
      requires Valid()
      modifies this
      ensures Valid() && view == Step(old(view), ReplyError(requestId, error))
    {
      var _ := TakeRequestCallback(requestId, Errored(error));
    }

    method CancelRequest(requestId: RequestId) returns (found: bool)
      requires Valid()
      modifies this
      ensures Valid() && view == Step(old(view), Cancel(requestId))
      ensures found <==> requestId in old(view).pending
    {
      var entry := TakeRequestCallback(requestId, Cancelled(None));
      found := entry.Some?;
    }

    /** `pending_requests_for_thread`: the thread's requests with their ids, in id order, as they are
        replayed to a connection that joins. */
    method PendingRequestsForThread(threadId: ThreadId) returns (requests: seq<(RequestId, R)>)
      requires Valid()
      ensures forall i :: 0 <= i < |requests| ==>
                requests[i].0 in view.pending && view.pending[requests[i].0] == Entry(Some(threadId), requests[i].1)
      ensures forall id :: id in OfThread(view.pending, threadId) ==> Mentions(requests, id)
      ensures forall i, j :: 0 <= i < j < |requests| ==>
                && IdLeq(requests[i].0, requests[j].0)
                && match (requests[i].0, requests[j].0) {
                     case (IntegerId(x), IntegerId(y)) => x < y
                     case (StringId(x), StringId(y)) => x != y
                     case (StringId(_), IntegerId(_)) => true
                     case (IntegerId(_), StringId(_)) => false
                   }
    {
      var table := requestIdToCallback;
      var ids: seq<RequestId> := [];
      var rest := OfThread(table, threadId);
      while rest != {}
        invariant rest <= OfThread(table, threadId) && Distinct(ids)
        invariant forall id :: id in ids <==> id in OfThread(table, threadId) - rest
        decreases rest
      {
        var id :| id in rest;
        DistinctSnoc(ids, id);
        ids := ids + [id];
        rest := rest - {id};
      }
      SortedIds(ids);
      hide SortBy, OfThread;
      var sorted := SortBy(BY_ID, ids);
      assert forall i :: 0 <= i < |sorted| ==> sorted[i] in ids;
      assert forall id :: id in ids ==> id in sorted;
      OnlyOfThread(table, threadId);
      requests := seq(|sorted|, i requires 0 <= i < |sorted| => (sorted[i], table[sorted[i]].request));
      forall id | id in OfThread(view.pending, threadId)
        ensures Mentions(requests, id)
      {
        assert id in ids && id in sorted;
        var i :| 0 <= i < |sorted| && sorted[i] == id;
        assert requests[i].0 == id;
      }
    }

    /** `cancel_requests_for_thread`: the ids are collected first, then their entries are removed one
        by one under the same lock. */
    method CancelRequestsForThread(threadId: ThreadId, error: Option<RpcError>)
      requires Valid()
      modifies this
      ensures Valid() && view == Step(old(view), CancelThread(threadId, error))
    {
      var ids := OfThread(requestIdToCallback, threadId);
      var rest := ids;
      while rest != {}
        invariant rest <= ids && ids == OfThread(old(view).pending, threadId)
        invariant requestIdToCallback == old(requestIdToCallback) - (ids - rest)
        invariant nextServerRequestId == old(nextServerRequestId) && view == old(view)
        decreases rest
      {
        var id :| id in rest;
        requestIdToCallback := requestIdToCallback - {id};
        rest := rest - {id};
      }
      view := Step(view, CancelThread(threadId, error));
    }
  }
}
