/** `ThreadWatchManager`: the status of every loaded thread, the notifications that publish its
    changes, and the guards that hold a waiting flag up. Each mutation is one block under the lock, and
    its notification leaves before the next block. */
module ThreadStatusWatch {
  import opened Wrappers
  import opened Ids

  // ---------- Runtime facts and status ----------

  datatype GuardKind = Permission | Input

  datatype Flag = WaitingOnApproval | WaitingOnUserInput

  datatype Status = NotLoaded | Active(flags: seq<Flag>) | SystemError | Idle

  datatype Facts = Facts(loaded: bool, running: bool, permissions: nat, inputs: nat, systemError: bool)

  const DEFAULT_FACTS := Facts(false, false, 0, 0, false)

  const U32_MAX: nat := 0xFFFF_FFFF

  function LoadedStatus(facts: Facts): Status {
    if !facts.loaded then NotLoaded
    else
      var flags := (if facts.permissions > 0 then [WaitingOnApproval] else [])
                   + (if facts.inputs > 0 then [WaitingOnUserInput] else []);
      if facts.running || flags != [] then Active(flags)
      else if facts.systemError then SystemError
      else Idle
  }

  type Runtime = map<ThreadId, Facts>

  function StatusFor(runtime: Runtime, t: ThreadId): Option<Status> {
    if t in runtime then Some(LoadedStatus(runtime[t])) else None
  }

  function StatusOf(runtime: Runtime, t: ThreadId): Status {
    if t in runtime then LoadedStatus(runtime[t]) else NotLoaded
  }

  // ---------- Events ----------

  datatype Event =
    | Upsert(t: ThreadId)
    | Remove(t: ThreadId)
    | TurnStarted(t: ThreadId)
    | TurnEnded(t: ThreadId)
    | Shutdown(t: ThreadId)
    | Failed(t: ThreadId)
    | Requested(t: ThreadId, kind: GuardKind)
    | Released(t: ThreadId, kind: GuardKind)

  function Counter(facts: Facts, kind: GuardKind): nat {
    if kind == Permission then facts.permissions else facts.inputs
  }

  function WithCounter(facts: Facts, kind: GuardKind, n: nat): Facts {
    if kind == Permission then facts.(permissions := n) else facts.(inputs := n)
  }

  function SaturatingAdd(n: nat): nat {
    if n >= U32_MAX then U32_MAX else n + 1
  }

  function SaturatingSub(n: nat): nat {
    if n == 0 then 0 else n - 1
  }

  /** What an event does to the facts of its thread, which count as loaded from then on unless the
      event says otherwise. */
  function Mutate(facts: Facts, event: Event): Facts
    requires !event.Remove?
  {
    var loaded := facts.(loaded := true);
    match event
    case Upsert(_) => loaded
    case TurnStarted(_) => loaded.(running := true, systemError := false)
    case TurnEnded(_) => loaded.(running := false, permissions := 0, inputs := 0)
    case Shutdown(_) => loaded.(running := false, permissions := 0, inputs := 0, loaded := false)
    case Failed(_) => loaded.(running := false, permissions := 0, inputs := 0, systemError := true)
    case Requested(_, kind) => WithCounter(loaded, kind, SaturatingAdd(Counter(loaded, kind)))
    case Released(_, kind) => WithCounter(loaded, kind, SaturatingSub(Counter(loaded, kind)))
  }

  function Update(runtime: Runtime, event: Event): Runtime {
    var t := event.t;
    if event.Remove? then runtime - {t}
    else runtime[t := Mutate(if t in runtime then runtime[t] else DEFAULT_FACTS, event)]
  }

  datatype Notification = StatusChanged(t: ThreadId, status: Status)

  /** A removal is announced unless the thread was already known as not loaded; any other change is
      announced unless the thread was tracked with the same status before. */
  function Announce(before: Runtime, event: Event): Option<Notification> {
    var t := event.t;
    var previous := StatusFor(before, t);
    if event.Remove? then
      if previous.Some? && previous.value != NotLoaded then Some(StatusChanged(t, NotLoaded)) else None
    else
      var status := StatusOf(Update(before, event), t);
      if previous == Some(status) then None else Some(StatusChanged(t, status))
  }

  function Running(runtime: Runtime): set<ThreadId> {
    set t | t in runtime && runtime[t].running
  }

  // ---------- Runs ----------

  /** The guards of one kind for a thread: requests that are counted and whose guard is not made yet,
      guards in someone's hands, and dropped guards whose release is not noted yet. */
  datatype Guards = Guards(handing: nat, live: nat, releasing: nat)

  function Outstanding(guards: Guards): nat {
    guards.handing + guards.live + guards.releasing
  }

  /** The runtime facts, the guards, the notifications sent and the running count last published. */
  datatype Watch = Watch(
    runtime: Runtime,
    guards: map<(ThreadId, GuardKind), Guards>,
    sent: seq<Notification>,
    runningCount: nat)

  const IDLE_WATCH := Watch(map[], map[], [], 0)

  /** Events change the facts under the lock. A guard is made after its request was noted; dropping it
      only spawns the task that notes the release. */
  datatype Action =
    | Noted(event: Event)
    | Handed(t: ThreadId, kind: GuardKind)
    | Dropped(t: ThreadId, kind: GuardKind)

  function GuardsOf(w: Watch, t: ThreadId, kind: GuardKind): Guards {
    if (t, kind) in w.guards then w.guards[(t, kind)] else Guards(0, 0, 0)
  }

  /** A guard is made once for each request, dropped once and released once. */
  predicate Enabled(w: Watch, action: Action) {
    match action
    case Noted(event) => event.Released? ==> GuardsOf(w, event.t, event.kind).releasing > 0
    case Handed(t, kind) => GuardsOf(w, t, kind).handing > 0
    case Dropped(t, kind) => GuardsOf(w, t, kind).live > 0
  }

  predicate MovesGuard(action: Action) {
    !action.Noted? || action.event.Requested? || action.event.Released?
  }

  /** Whose guards an action moves. */
  function Owner(action: Action): (ThreadId, GuardKind)
    requires MovesGuard(action)
  {
    if action.Noted? then (action.event.t, action.event.kind) else (action.t, action.kind)
  }

  function Move(guards: Guards, action: Action): Guards
    requires MovesGuard(action)
    requires action.Handed? ==> guards.handing > 0
    requires action.Dropped? ==> guards.live > 0
    requires action.Noted? && action.event.Released? ==> guards.releasing > 0
  {
    match action
    case Handed(_, _) => guards.(handing := guards.handing - 1, live := guards.live + 1)
    case Dropped(_, _) => guards.(live := guards.live - 1, releasing := guards.releasing + 1)
    case Noted(event) =>
      if event.Requested? then guards.(handing := guards.handing + 1)
      else guards.(releasing := guards.releasing - 1)
  }

  function NextGuards(w: Watch, action: Action): map<(ThreadId, GuardKind), Guards>
    requires Enabled(w, action)
  {
    if MovesGuard(action)
    then w.guards[Owner(action) := Move(GuardsOf(w, Owner(action).0, Owner(action).1), action)]
    else w.guards
  }

  function Step(w: Watch, action: Action): Watch {
    if !Enabled(w, action) then w
    else if !action.Noted? then w.(guards := NextGuards(w, action))
    else
      var runtime := Update(w.runtime, action.event);
      var note := Announce(w.runtime, action.event);
      Watch(runtime,
            NextGuards(w, action),
            if note.Some? then w.sent + [note.value] else w.sent,
            |Running(runtime)|)
  }

  function Run(w: Watch, actions: seq<Action>): Watch
    decreases |actions|
  {
    if actions == [] then w else Run(Step(w, actions[0]), actions[1..])
  }

  /** A client that starts with every thread not loaded and applies the notifications in order. */
  function Replay(sent: seq<Notification>): map<ThreadId, Status> {
    if sent == [] then map[]
    else
      var last := sent[|sent| - 1];
      Replay(sent[..|sent| - 1])[last.t := last.status]
  }

  function ClientStatus(sent: seq<Notification>, t: ThreadId): Status {
    var known := Replay(sent);
    if t in known then known[t] else NotLoaded
  }

  lemma ReplaySnoc(sent: seq<Notification>, note: Notification, t: ThreadId)
    ensures ClientStatus(sent + [note], t) == if t == note.t then note.status else ClientStatus(sent, t)
  {
    assert (sent + [note])[..|sent|] == sent;
  }

  function CounterOf(w: Watch, t: ThreadId, kind: GuardKind): nat {
    if t in w.runtime then Counter(w.runtime[t], kind) else 0
  }

  /** The client is up to date, the published count is the number of running threads, and each counter
      is at most the number of outstanding guards of its kind. */
  ghost predicate Faithful(w: Watch) {
    && (forall t :: ClientStatus(w.sent, t) == StatusOf(w.runtime, t))
    && w.runningCount == |Running(w.runtime)|
    && (forall t, kind :: CounterOf(w, t, kind) <= Outstanding(GuardsOf(w, t, kind)))
  }

  predicate Requests(action: Action, t: ThreadId, kind: GuardKind) {
    action.Noted? && action.event.Requested? && action.event.t == t && action.event.kind == kind
  }

  predicate Releases(action: Action, t: ThreadId, kind: GuardKind) {
    action.Noted? && action.event.Released? && action.event.t == t && action.event.kind == kind
  }

  /** The thread's counters go back to zero, whatever guards are outstanding. */
  predicate Resets(action: Action, t: ThreadId) {
    action.Noted? && action.event.t == t &&
    (action.event.Remove? || action.event.TurnEnded? || action.event.Shutdown? || action.event.Failed?)
  }

  /** What one step does to a counter. */
  lemma StepCounter(w: Watch, action: Action, t: ThreadId, kind: GuardKind)
    requires Enabled(w, action)
    ensures CounterOf(Step(w, action), t, kind) ==
            if Resets(action, t) then 0
            else if Requests(action, t, kind) then SaturatingAdd(CounterOf(w, t, kind))
            else if Releases(action, t, kind) then SaturatingSub(CounterOf(w, t, kind))
            else CounterOf(w, t, kind)
  {
    hide Announce, Running, NextGuards, Enabled;
  }

  lemma MoveOutstanding(w: Watch, action: Action)
    requires Enabled(w, action) && MovesGuard(action)
    ensures var (t, kind) := Owner(action);
            Outstanding(Move(GuardsOf(w, t, kind), action)) ==
            Outstanding(GuardsOf(w, t, kind)) + (if Requests(action, t, kind) then 1
                                                 else if Releases(action, t, kind) then -1 else 0)
  {
    hide GuardsOf;
  }

  lemma OnlyOwners(action: Action, t: ThreadId, kind: GuardKind)
    ensures Requests(action, t, kind) || Releases(action, t, kind) ==> MovesGuard(action) && Owner(action) == (t, kind)
    ensures !(Requests(action, t, kind) && Releases(action, t, kind))
  {
  }

  lemma StepGuards(w: Watch, action: Action)
    requires Enabled(w, action)
    ensures Step(w, action).guards == NextGuards(w, action)
  {
    hide Announce, Running, Update, NextGuards, Enabled;
  }

  /** What one step does to the outstanding guards. */
  lemma StepOutstanding(w: Watch, action: Action, t: ThreadId, kind: GuardKind)
    requires Enabled(w, action)
    ensures Outstanding(GuardsOf(Step(w, action), t, kind)) ==
            Outstanding(GuardsOf(w, t, kind)) + (if Requests(action, t, kind) then 1
                                                 else if Releases(action, t, kind) then -1 else 0)
  {
    hide Step, Enabled, Move, Requests, Releases, Outstanding;
    StepGuards(w, action);
    if MovesGuard(action) {
      MoveOutstanding(w, action);
    }
    OnlyOwners(action, t, kind);
  }

  lemma StepRunning(w: Watch, action: Action)
    requires Enabled(w, action) && w.runningCount == |Running(w.runtime)|
    ensures Step(w, action).runningCount == |Running(Step(w, action).runtime)|
  {
    hide Announce, Update, NextGuards, Running, Enabled;
  }

  lemma StepBacked(w: Watch, action: Action, t: ThreadId, kind: GuardKind)
    requires Enabled(w, action)
    requires CounterOf(w, t, kind) <= Outstanding(GuardsOf(w, t, kind))
    ensures CounterOf(Step(w, action), t, kind) <= Outstanding(GuardsOf(Step(w, action), t, kind))
  {
    hide Step, CounterOf, GuardsOf, Enabled, Requests, Releases, Resets, Outstanding;
    StepCounter(w, action, t, kind);
    StepOutstanding(w, action, t, kind);
  }

  lemma StepClient(w: Watch, action: Action, t: ThreadId)
    requires Enabled(w, action) && ClientStatus(w.sent, t) == StatusOf(w.runtime, t)
    ensures ClientStatus(Step(w, action).sent, t) == StatusOf(Step(w, action).runtime, t)
  {
    hide Mutate, LoadedStatus, ClientStatus, Running, NextGuards;
    if action.Noted? {
      var next := Step(w, action);
      var note := Announce(w.runtime, action.event);
      assert t != action.event.t ==> StatusOf(next.runtime, t) == StatusOf(w.runtime, t);
      if note.Some? {
        ReplaySnoc(w.sent, note.value, t);
      }
    }
  }

  lemma StepFaithful(w: Watch, action: Action)
    requires Faithful(w)
    ensures Faithful(Step(w, action))
  {
    if Enabled(w, action) {
      StepRunning(w, action);
      hide Step, CounterOf, GuardsOf, Running, ClientStatus, StatusOf, Enabled;
      var next := Step(w, action);
      forall t, kind
        ensures CounterOf(next, t, kind) <= Outstanding(GuardsOf(next, t, kind))
      {
        assert CounterOf(w, t, kind) <= Outstanding(GuardsOf(w, t, kind));
        StepBacked(w, action, t, kind);
      }
      forall t
        ensures ClientStatus(next.sent, t) == StatusOf(next.runtime, t)
      {
        assert ClientStatus(w.sent, t) == StatusOf(w.runtime, t);
        StepClient(w, action, t);
      }
    }
  }

  lemma {:induction false} RunFaithful(w: Watch, actions: seq<Action>)
    requires Faithful(w)
    ensures Faithful(Run(w, actions))
    decreases |actions|
  {
    hide Faithful, Step;
    if actions == [] {
    } else {
      StepFaithful(w, actions[0]);
      RunFaithful(Step(w, actions[0]), actions[1..]);
    }
  }

  function FlagOf(kind: GuardKind): Flag {
    if kind == Permission then WaitingOnApproval else WaitingOnUserInput
  }

  predicate FlagUp(status: Status, kind: GuardKind) {
    status.Active? && FlagOf(kind) in status.flags
  }

  lemma FlagShowsCounter(facts: Facts, kind: GuardKind)
    ensures FlagUp(LoadedStatus(facts), kind) <==> facts.loaded && Counter(facts, kind) > 0
  {
  }

  lemma IdleIsFaithful()
    ensures Faithful(IDLE_WATCH)
  {
  }

  /** After every run: replaying the notifications gives the status of every thread, the published count
      is right, and a waiting flag has an outstanding guard: one about to be handed out, one in someone's
      hands, or a dropped one whose release is not noted yet. */
  lemma ClientsFollow(actions: seq<Action>, t: ThreadId, kind: GuardKind)
    ensures var w := Run(IDLE_WATCH, actions);
            && ClientStatus(w.sent, t) == StatusOf(w.runtime, t)
            && w.runningCount == |Running(w.runtime)|
            && (FlagUp(ClientStatus(w.sent, t), kind) ==> Outstanding(GuardsOf(w, t, kind)) > 0)
  {
    IdleIsFaithful();
    RunFaithful(IDLE_WATCH, actions);
    var w := Run(IDLE_WATCH, actions);
    assert CounterOf(w, t, kind) <= Outstanding(GuardsOf(w, t, kind));
    if t in w.runtime {
      FlagShowsCounter(w.runtime[t], kind);
    }
  }

  // ---------- Flags and live guards ----------

  predicate NeverResets(actions: seq<Action>, t: ThreadId) {
    forall i :: 0 <= i < |actions| ==> !Resets(actions[i], t)
  }

  /** A thread with outstanding guards is loaded, and its counters are exact. */
  ghost predicate Exact(w: Watch, t: ThreadId, kind: GuardKind) {
    && CounterOf(w, t, kind) == Outstanding(GuardsOf(w, t, kind))
    && (CounterOf(w, t, kind) > 0 ==> w.runtime[t].loaded)
  }

  lemma ReleasedIsOutstanding(w: Watch, action: Action, t: ThreadId, kind: GuardKind)
    requires Enabled(w, action)
    ensures Releases(action, t, kind) ==> Outstanding(GuardsOf(w, t, kind)) > 0
  {
    hide GuardsOf;
  }

  lemma StepLoaded(w: Watch, action: Action, t: ThreadId, kind: GuardKind)
    requires !Resets(action, t) && Enabled(w, action)
    requires CounterOf(w, t, kind) > 0 ==> w.runtime[t].loaded
    ensures CounterOf(Step(w, action), t, kind) > 0 ==> Step(w, action).runtime[t].loaded
  {
    hide Announce, Running, NextGuards;
  }

  lemma StepExact(w: Watch, action: Action, t: ThreadId, kind: GuardKind)
    requires Exact(w, t, kind) && !Resets(action, t) && Outstanding(GuardsOf(w, t, kind)) < U32_MAX
    ensures Exact(Step(w, action), t, kind)
    ensures Outstanding(GuardsOf(Step(w, action), t, kind)) <= Outstanding(GuardsOf(w, t, kind)) + 1
  {
    hide GuardsOf, Enabled, CounterOf, Requests, Releases, Resets, Outstanding;
    if Enabled(w, action) {
      hide Step;
      StepCounter(w, action, t, kind);
      StepOutstanding(w, action, t, kind);
      ReleasedIsOutstanding(w, action, t, kind);
      StepLoaded(w, action, t, kind);
    }
  }

  lemma {:induction false} RunExact(w: Watch, actions: seq<Action>, t: ThreadId, kind: GuardKind)
    requires Exact(w, t, kind) && NeverResets(actions, t)
    requires Outstanding(GuardsOf(w, t, kind)) + |actions| <= U32_MAX
    ensures Exact(Run(w, actions), t, kind)
    decreases |actions|
  {
    hide Exact, Step, GuardsOf, Resets;
    if actions == [] {
    } else {
      StepExact(w, actions[0], t, kind);
      assert forall i :: 0 <= i < |actions| - 1 ==> actions[1..][i] == actions[i + 1];
      RunExact(Step(w, actions[0]), actions[1..], t, kind);
    }
  }

  lemma NotLoadedHasNoFlag(kind: GuardKind)
    ensures !FlagUp(NotLoaded, kind)
  {
  }

  /** From any moment at which no guard of a thread is outstanding, and for as long as the thread is not
      reset (for fewer than 2^32 steps), a flag is up exactly while a guard is outstanding. So it is up
      without a live guard exactly when none is live and one is about to be handed out or waits for its
      release to be noted. */
  lemma FlagUpIff(before: seq<Action>, actions: seq<Action>, t: ThreadId, kind: GuardKind)
    requires Outstanding(GuardsOf(Run(IDLE_WATCH, before), t, kind)) == 0
    requires NeverResets(actions, t) && |actions| <= 0xFFFF_FFFF
    ensures var w := Run(Run(IDLE_WATCH, before), actions);
            FlagUp(ClientStatus(w.sent, t), kind) <==> Outstanding(GuardsOf(w, t, kind)) > 0
  {
    hide Run, Step, GuardsOf, ClientStatus, FlagUp, LoadedStatus, NeverResets, Counter;
    var start := Run(IDLE_WATCH, before);
    IdleIsFaithful();
    RunFaithful(IDLE_WATCH, before);
    assert CounterOf(start, t, kind) <= Outstanding(GuardsOf(start, t, kind));
    RunExact(start, actions, t, kind);
    RunFaithful(start, actions);
    var w := Run(start, actions);
    if t in w.runtime {
      FlagShowsCounter(w.runtime[t], kind);
    }
    NotLoadedHasNoFlag(kind);
  }

  lemma StepMoves(w: Watch, action: Action)
    requires Enabled(w, action) && MovesGuard(action)
    ensures var (t, kind) := Owner(action);
            GuardsOf(Step(w, action), t, kind) == Move(GuardsOf(w, t, kind), action)
  {
    hide Move, Enabled;
    StepGuards(w, action);
  }

  /** A guard that is requested, handed out and dropped: it is counted and waits for its release. */
  lemma RequestAndDrop(w: Watch, t: ThreadId)
    requires GuardsOf(w, t, Permission) == Guards(0, 0, 0)
    ensures var next := Run(w, [Noted(Requested(t, Permission)), Handed(t, Permission), Dropped(t, Permission)]);
            GuardsOf(next, t, Permission) == Guards(0, 0, 1)
  {
    var a, b, c := Noted(Requested(t, Permission)), Handed(t, Permission), Dropped(t, Permission);
    RunThree(w, a, b, c);
    hide Step, GuardsOf;
    StepMoves(w, a);
    StepMoves(Step(w, a), b);
    StepMoves(Step(Step(w, a), b), c);
  }

  /** Dropping the only guard leaves the flag up until the spawned task runs. */
  lemma FlagOutlivesGuard(t: ThreadId)
    ensures var w := Run(IDLE_WATCH, [Noted(Requested(t, Permission)), Handed(t, Permission), Dropped(t, Permission)]);
            FlagUp(ClientStatus(w.sent, t), Permission) && GuardsOf(w, t, Permission).live == 0
  {
    var actions := [Noted(Requested(t, Permission)), Handed(t, Permission), Dropped(t, Permission)];
    assert forall i :: 0 <= i < |actions| ==> !Resets(actions[i], t);
    RequestAndDrop(IDLE_WATCH, t);
    assert Run(IDLE_WATCH, []) == IDLE_WATCH && GuardsOf(IDLE_WATCH, t, Permission) == Guards(0, 0, 0);
    hide Step, Run, ClientStatus, FlagUp, GuardsOf, Resets;
    FlagUpIff([], actions, t, Permission);
  }

  lemma NoCounterNoFlag(w: Watch, t: ThreadId, kind: GuardKind)
    requires CounterOf(w, t, kind) == 0
    ensures !FlagUp(StatusOf(w.runtime, t), kind)
  {
    if t in w.runtime {
      FlagShowsCounter(w.runtime[t], kind);
    }
  }

  lemma RunOne(w: Watch, action: Action)
    ensures Run(w, [action]) == Step(w, action)
  {
    hide Step;
    assert [action][1..] == [];
    assert Run(Step(w, action), []) == Step(w, action);
  }

  lemma {:induction false} RunAppend(w: Watch, first: seq<Action>, second: seq<Action>)
    ensures Run(w, first + second) == Run(Run(w, first), second)
    decreases |first|
  {
    hide Step;
    if first == [] {
      assert first + second == second;
    } else {
      assert (first + second)[1..] == first[1..] + second;
      RunAppend(Step(w, first[0]), first[1..], second);
    }
  }

  /** The condition on resets is needed: a release that is noted only after its turn has ended takes away
      the flag of a later request whose guard is still live. */
  lemma LateReleaseHidesRequest(t: ThreadId)
    ensures var w := Run(IDLE_WATCH, [Noted(Requested(t, Permission)), Handed(t, Permission), Dropped(t, Permission)]
                                     + [Noted(TurnEnded(t)), Noted(Requested(t, Permission)), Handed(t, Permission)]
                                     + [Noted(Released(t, Permission))]);
            GuardsOf(w, t, Permission).live == 1 && !FlagUp(ClientStatus(w.sent, t), Permission)
  {
    var a, b, c := Noted(Requested(t, Permission)), Handed(t, Permission), Dropped(t, Permission);
    var d, e := Noted(TurnEnded(t)), Noted(Released(t, Permission));
    var w3 := Run(IDLE_WATCH, [a, b, c]);
    var w4 := Step(w3, d);
    var w5 := Step(w4, a);
    var w6 := Step(w5, b);
    var w7 := Step(w6, e);
    RunAppend(IDLE_WATCH, [a, b, c] + [d, a, b], [e]);
    RunAppend(IDLE_WATCH, [a, b, c], [d, a, b]);
    RunThree(w3, d, a, b);
    RunOne(w6, e);
    RequestAndDrop(IDLE_WATCH, t);
    IdleIsFaithful();
    RunFaithful(IDLE_WATCH, [a, b, c] + [d, a, b] + [e]);
    assert GuardsOf(w4, t, Permission) == GuardsOf(w3, t, Permission) by {
      hide Announce, Running, Update;
    }
    hide Step, Run, GuardsOf, ClientStatus, FlagUp, CounterOf, Counter, LoadedStatus;
    StepMoves(w4, a);
    StepMoves(w5, b);
    StepMoves(w6, e);
    StepCounter(w3, d, t, Permission);
    StepCounter(w4, a, t, Permission);
    StepCounter(w5, b, t, Permission);
    StepCounter(w6, e, t, Permission);
    NoCounterNoFlag(w7, t, Permission);
  }

  // ---------- Announcements ----------

  /** Something is announced exactly when the thread's status changes, or when a thread that was not
      tracked is shut down. */
  lemma AnnouncedIffChanged(w: Watch, event: Event)
    ensures Announce(w.runtime, event).Some? <==>
            || StatusOf(Update(w.runtime, event), event.t) != StatusOf(w.runtime, event.t)
            || (event.Shutdown? && event.t !in w.runtime)
    ensures forall t :: t != event.t ==> StatusOf(Update(w.runtime, event), t) == StatusOf(w.runtime, t)
  {
  }

  // ---------- Guards outlive what they guard ----------

  /** A thread that is not loaded stays so through an event exactly when the event is for another
      thread, a removal or a shutdown. In particular a late release of a guard brings it back. */
  lemma StaysNotLoadedIff(runtime: Runtime, event: Event, t: ThreadId)
    requires StatusOf(runtime, t) == NotLoaded
    ensures StatusOf(Update(runtime, event), t) == NotLoaded <==>
            event.t != t || event.Remove? || event.Shutdown?
  {
  }

  lemma RunThree(w: Watch, a: Action, b: Action, c: Action)
    ensures Run(w, [a, b, c]) == Step(Step(Step(w, a), b), c)
  {
    hide Step;
    assert [a, b, c][1..] == [b, c] && [b, c][1..] == [c] && [c][1..] == [];
    assert Run(Step(w, a), [b, c]) == Run(Step(Step(w, a), b), [c]);
    assert Run(Step(Step(w, a), b), [c]) == Run(Step(Step(Step(w, a), b), c), []);
  }

  /** A run in which a removed thread is announced as loaded again, by nothing but its old guard. */
  lemma LateReleaseRevives(t: ThreadId)
    ensures var w := Run(IDLE_WATCH, [Noted(Requested(t, Permission)), Handed(t, Permission), Noted(Remove(t)),
                                      Dropped(t, Permission), Noted(Released(t, Permission))]);
            w.sent == [StatusChanged(t, Active([WaitingOnApproval])), StatusChanged(t, NotLoaded),
                       StatusChanged(t, Idle)]
  {
    var a, b, c, d, e := Noted(Requested(t, Permission)), Handed(t, Permission), Noted(Remove(t)),
      Dropped(t, Permission), Noted(Released(t, Permission));
    var w1 := Step(IDLE_WATCH, a);
    var w2 := Step(w1, b);
    var w3 := Step(w2, c);
    var w4 := Step(w3, d);
    var w5 := Step(w4, e);
    assert Run(IDLE_WATCH, [a, b, c, d, e]) == w5 by {
      assert [a, b, c, d, e][1..] == [b, c, d, e] && [b, c, d, e][1..] == [c, d, e];
      hide Step;
      assert Run(IDLE_WATCH, [a, b, c, d, e]) == Run(Step(IDLE_WATCH, a), [b, c, d, e]);
      assert Run(w1, [b, c, d, e]) == Run(Step(w1, b), [c, d, e]);
      RunThree(w2, c, d, e);
    }
    var none: seq<Flag> := [];
    assert [WaitingOnApproval] + none == [WaitingOnApproval];
    assert w1.runtime[t] == Facts(true, false, 1, 0, false);
    assert w1.sent == [StatusChanged(t, Active([WaitingOnApproval]))];
    assert GuardsOf(w2, t, Permission) == Guards(0, 1, 0) && w2.sent == w1.sent && w2.runtime == w1.runtime;
    assert w3.sent == w2.sent + [StatusChanged(t, NotLoaded)] && t !in w3.runtime;
    assert GuardsOf(w4, t, Permission) == Guards(0, 0, 1) && w4.sent == w3.sent && w4.runtime == w3.runtime;
    assert w5.sent == w4.sent + [StatusChanged(t, Idle)];
  }

  // ---------- The object ----------

  class ThreadWatchManager {
    var runtimeByThreadId: Runtime
    var outgoing: seq<Notification>
    var runningTurnCount: nat
    /** The tasks that dropped guards have spawned and that have not run yet. */
    var spawned: multiset<(ThreadId, GuardKind)>
    ghost var guards: map<(ThreadId, GuardKind), Guards>

    ghost function View(): Watch
      reads this
    {
      Watch(runtimeByThreadId, guards, outgoing, runningTurnCount)
    }

    /** There is one task for each dropped guard whose release is not noted yet. */
    ghost predicate Valid()
      reads this
    {
      forall t, kind :: GuardsOf(View(), t, kind).releasing == spawned[(t, kind)]
    }

    constructor ()
      ensures Valid() && View() == IDLE_WATCH
    {
      runtimeByThreadId, outgoing, runningTurnCount, guards := map[], [], 0, map[];
      spawned := multiset{};
    }

    /** `mutate_and_publish`: the mutation and the count under the lock, then the count and the
        notification are sent. */
    method MutateAndPublish(event: Event)
      modifies `runtimeByThreadId, `outgoing, `runningTurnCount
      ensures runtimeByThreadId == Update(old(runtimeByThreadId), event)
      ensures outgoing == old(outgoing) + (var note := Announce(old(runtimeByThreadId), event);
                                           if note.Some? then [note.value] else [])
      ensures runningTurnCount == |Running(runtimeByThreadId)|
    {
      var t := event.t;
      var previous := StatusFor(runtimeByThreadId, t);
      var notification: Option<Notification> := None;
      if event.Remove? {
        runtimeByThreadId := runtimeByThreadId - {t};
        if previous.Some? && previous != Some(NotLoaded) {
          notification := Some(StatusChanged(t, NotLoaded));
        }
      } else {
        if t !in runtimeByThreadId {
          runtimeByThreadId := runtimeByThreadId[t := DEFAULT_FACTS];
        }
        runtimeByThreadId := runtimeByThreadId[t := Mutate(runtimeByThreadId[t], event)];
        assert runtimeByThreadId == Update(old(runtimeByThreadId), event);
        var status := LoadedStatus(runtimeByThreadId[t]);
        if previous != Some(status) {
          notification := Some(StatusChanged(t, status));
        }
      }
      runningTurnCount := |Running(runtimeByThreadId)|;
      if notification.Some? {
        outgoing := outgoing + [notification.value];
      }
    }

    /** The events that come with no guard. */
    method Note(event: Event)
      requires Valid() && !event.Requested? && !event.Released?
      modifies this
      ensures Valid() && View() == Step(old(View()), Noted(event))
    {
      MutateAndPublish(event);
      assert forall t, kind :: GuardsOf(View(), t, kind) == GuardsOf(old(View()), t, kind);
    }

    /** `note_pending_request`: the request is counted and published, and then the caller gets a guard. */
    method NotePendingRequest(t: ThreadId, kind: GuardKind)
      requires Valid()
      modifies this
      ensures Valid() && View() == Step(Step(old(View()), Noted(Requested(t, kind))), Handed(t, kind))
    {
      ghost var before := View();
      MutateAndPublish(Requested(t, kind));
      guards := NextGuards(before, Noted(Requested(t, kind)));
      ghost var counted := View();
      assert counted == Step(before, Noted(Requested(t, kind)));
      guards := NextGuards(counted, Handed(t, kind));
      assert forall t', k' :: GuardsOf(View(), t', k').releasing == GuardsOf(before, t', k').releasing;
    }

    /** Dropping a guard changes no fact; it spawns the task that notes the release. */
    method DropGuard(t: ThreadId, kind: GuardKind)
      requires Valid() && GuardsOf(View(), t, kind).live > 0
      modifies this
      ensures Valid() && View() == Step(old(View()), Dropped(t, kind))
      ensures spawned == old(spawned) + multiset{(t, kind)}
    {
      guards := NextGuards(View(), Dropped(t, kind));
      spawned := spawned + multiset{(t, kind)};
    }

    /** `note_active_guard_released`, which a spawned task runs. */
    method NoteActiveGuardReleased(t: ThreadId, kind: GuardKind)
      requires Valid() && (t, kind) in spawned
      modifies this
      ensures Valid() && View() == Step(old(View()), Noted(Released(t, kind)))
      ensures spawned == old(spawned) - multiset{(t, kind)}
    {
      ghost var before := View();
      assert GuardsOf(before, t, kind).releasing > 0;
      MutateAndPublish(Released(t, kind));
      guards := NextGuards(before, Noted(Released(t, kind)));
      spawned := spawned - multiset{(t, kind)};
    }

    /** What a client is told when it asks is what it would know from the notifications. */
    method LoadedStatusForThread(t: ThreadId) returns (status: Status)
      requires Faithful(View())
      ensures status == ClientStatus(outgoing, t)
    {
      assert ClientStatus(View().sent, t) == StatusOf(View().runtime, t);
      status := if t in runtimeByThreadId then LoadedStatus(runtimeByThreadId[t]) else NotLoaded;
    }
  }
}
