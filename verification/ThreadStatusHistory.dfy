/** What a thread's status says about its past: over every run, the status a client has is decided by the
    last turn event, the last failure and the waiting requests in the history of events. */
module ThreadStatusHistory {
  import opened Ids
  import opened ThreadStatusWatch

  // ---------- Histories ----------

  /** The events of a run that took effect, in order. */
  function History(w: Watch, actions: seq<Action>): (h: seq<Event>)
    decreases |actions|
  {
    if actions == [] then []
    else
      (if actions[0].Noted? && Enabled(w, actions[0]) then [actions[0].event] else [])
      + History(Step(w, actions[0]), actions[1..])
  }

  /** The last event of the thread neither removed it nor shut it down. */
  ghost predicate LoadedBy(h: seq<Event>, t: ThreadId) {
    exists i :: 0 <= i < |h| && h[i].t == t && h[i] != Remove(t) && h[i] != Shutdown(t)
                && forall j :: i < j < |h| ==> h[j].t != t
  }

  predicate EndsTurn(event: Event, t: ThreadId) {
    event == TurnEnded(t) || event == Shutdown(t) || event == Failed(t) || event == Remove(t)
  }

  /** A turn was started, and nothing has ended it since. */
  ghost predicate RunningBy(h: seq<Event>, t: ThreadId) {
    exists i :: 0 <= i < |h| && h[i] == TurnStarted(t) && forall j :: i < j < |h| ==> !EndsTurn(h[j], t)
  }

  /** The thread failed, and since then it was not removed and no turn was started. */
  ghost predicate FailedBy(h: seq<Event>, t: ThreadId) {
    exists i :: 0 <= i < |h| && h[i] == Failed(t)
                && forall j :: i < j < |h| ==> h[j] != TurnStarted(t) && h[j] != Remove(t)
  }

  /** The requests of one kind that are counted as waiting. */
  function Pending(h: seq<Event>, t: ThreadId, kind: GuardKind): (n: nat) {
    if h == [] then 0
    else
      var last, before := h[|h| - 1], Pending(h[..|h| - 1], t, kind);
      if EndsTurn(last, t) then 0
      else if last == Requested(t, kind) then SaturatingAdd(before)
      else if last == Released(t, kind) then SaturatingSub(before)
      else before
  }

  // ---------- Histories grow at the end ----------

  lemma LoadedSnoc(h: seq<Event>, e: Event, t: ThreadId)
    ensures LoadedBy(h + [e], t) <==> if e.t == t then e != Remove(t) && e != Shutdown(t) else LoadedBy(h, t)
  {
    var all := h + [e];
    assert all[|h|] == e;
    if e.t != t && LoadedBy(h, t) {
      var i :| 0 <= i < |h| && h[i].t == t && h[i] != Remove(t) && h[i] != Shutdown(t)
               && forall j :: i < j < |h| ==> h[j].t != t;
      assert all[i].t == t;
    }
    if LoadedBy(all, t) {
      var i :| 0 <= i < |all| && all[i].t == t && all[i] != Remove(t) && all[i] != Shutdown(t)
               && forall j :: i < j < |all| ==> all[j].t != t;
      if i < |h| {
        assert h[i].t == t && forall j :: i < j < |h| ==> h[j] == all[j];
      }
    }
  }

  lemma RunningSnoc(h: seq<Event>, e: Event, t: ThreadId)
    ensures RunningBy(h + [e], t) <==> e == TurnStarted(t) || (RunningBy(h, t) && !EndsTurn(e, t))
  {
    var all := h + [e];
    assert all[|h|] == e;
    if RunningBy(h, t) && !EndsTurn(e, t) {
      var i :| 0 <= i < |h| && h[i] == TurnStarted(t) && forall j :: i < j < |h| ==> !EndsTurn(h[j], t);
      assert all[i] == TurnStarted(t);
    }
    if RunningBy(all, t) && e != TurnStarted(t) {
      var i :| 0 <= i < |all| && all[i] == TurnStarted(t) && forall j :: i < j < |all| ==> !EndsTurn(all[j], t);
      assert h[i] == TurnStarted(t) && forall j :: i < j < |h| ==> h[j] == all[j];
    }
  }

  lemma FailedSnoc(h: seq<Event>, e: Event, t: ThreadId)
    ensures FailedBy(h + [e], t) <==> e == Failed(t) || (FailedBy(h, t) && e != TurnStarted(t) && e != Remove(t))
  {
    var all := h + [e];
    assert all[|h|] == e;
    if FailedBy(h, t) && e != TurnStarted(t) && e != Remove(t) {
      var i :| 0 <= i < |h| && h[i] == Failed(t)
               && forall j :: i < j < |h| ==> h[j] != TurnStarted(t) && h[j] != Remove(t);
      assert all[i] == Failed(t);
    }
    if FailedBy(all, t) && e != Failed(t) {
      var i :| 0 <= i < |all| && all[i] == Failed(t)
               && forall j :: i < j < |all| ==> all[j] != TurnStarted(t) && all[j] != Remove(t);
      assert h[i] == Failed(t) && forall j :: i < j < |h| ==> h[j] == all[j];
    }
  }

  lemma PendingSnoc(h: seq<Event>, e: Event, t: ThreadId, kind: GuardKind)
    ensures Pending(h + [e], t, kind) ==
            if EndsTurn(e, t) then 0
            else if e == Requested(t, kind) then SaturatingAdd(Pending(h, t, kind))
            else if e == Released(t, kind) then SaturatingSub(Pending(h, t, kind))
            else Pending(h, t, kind)
  {
    assert (h + [e])[..|h|] == h;
  }

  // ---------- Facts follow histories ----------

  /** What the facts record about a thread is what the history says. */
  ghost predicate Records(runtime: Runtime, h: seq<Event>, t: ThreadId) {
    && (t in runtime && runtime[t].loaded <==> LoadedBy(h, t))
    && (t in runtime && runtime[t].running <==> RunningBy(h, t))
    && (t in runtime && runtime[t].systemError <==> FailedBy(h, t))
    && (forall kind :: Pending(h, t, kind) == if t in runtime then Counter(runtime[t], kind) else 0)
  }

  lemma UpdateRecords(runtime: Runtime, h: seq<Event>, event: Event, t: ThreadId)
    requires Records(runtime, h, t)
    ensures Records(Update(runtime, event), h + [event], t)
  {
    LoadedSnoc(h, event, t);
    RunningSnoc(h, event, t);
    FailedSnoc(h, event, t);
    forall kind
      ensures Pending(h + [event], t, kind) ==
              if t in Update(runtime, event) then Counter(Update(runtime, event)[t], kind) else 0
    {
      PendingSnoc(h, event, t, kind);
      hide LoadedBy, RunningBy, FailedBy, Pending;
    }
    hide LoadedBy, RunningBy, FailedBy, Pending;
  }

  lemma {:induction false} RunRecords(w: Watch, actions: seq<Action>, h: seq<Event>, t: ThreadId)
    requires Records(w.runtime, h, t)
    ensures Records(Run(w, actions).runtime, h + History(w, actions), t)
    decreases |actions|
  {
    hide Records, Announce, Running, Update, NextGuards;
    if actions == [] {
      assert h + [] == h;
    } else {
      var next := Step(w, actions[0]);
      var noted := if actions[0].Noted? && Enabled(w, actions[0]) then [actions[0].event] else [];
      assert h + [] == h;
      if noted != [] {
        UpdateRecords(w.runtime, h, actions[0].event, t);
      }
      assert Records(next.runtime, h + noted, t);
      hide Step, Enabled;
      RunRecords(next, actions[1..], h + noted, t);
      assert h + noted + History(next, actions[1..]) == h + (noted + History(next, actions[1..]));
    }
  }

  // ---------- Waiting requests ----------

  /** How many more requests than releases there are. */
  function Balance(h: seq<Event>, t: ThreadId, kind: GuardKind): int {
    if h == [] then 0
    else
      var last := h[|h| - 1];
      Balance(h[..|h| - 1], t, kind)
      + (if last == Requested(t, kind) then 1 else if last == Released(t, kind) then -1 else 0)
  }

  /** No turn of the thread ends from `i` on. */
  predicate SameTurnFrom(h: seq<Event>, t: ThreadId, i: nat) {
    forall j :: i <= j < |h| ==> !EndsTurn(h[j], t)
  }

  /** `n` is the largest balance of the events since a moment after the last end of a turn. */
  ghost predicate BestBalance(h: seq<Event>, t: ThreadId, kind: GuardKind, n: int) {
    && (exists i :: 0 <= i <= |h| && SameTurnFrom(h, t, i) && Balance(h[i..], t, kind) == n)
    && (forall i :: 0 <= i <= |h| && SameTurnFrom(h, t, i) ==> Balance(h[i..], t, kind) <= n)
  }

  lemma BalanceSnoc(h: seq<Event>, e: Event, t: ThreadId, kind: GuardKind, i: nat)
    requires i <= |h|
    ensures Balance((h + [e])[i..], t, kind) ==
            Balance(h[i..], t, kind)
            + (if e == Requested(t, kind) then 1 else if e == Released(t, kind) then -1 else 0)
  {
    var all := (h + [e])[i..];
    assert all[..|all| - 1] == h[i..] && all[|all| - 1] == e;
  }

  lemma SameTurnSnoc(h: seq<Event>, e: Event, t: ThreadId, i: nat)
    requires i <= |h| + 1
    ensures SameTurnFrom(h + [e], t, i) <==> i == |h| + 1 || (SameTurnFrom(h, t, i) && !EndsTurn(e, t))
  {
    if SameTurnFrom(h + [e], t, i) && i <= |h| {
      assert (h + [e])[|h|] == e;
      assert forall j :: i <= j < |h| ==> h[j] == (h + [e])[j];
    }
  }

  lemma NothingBalances(t: ThreadId, kind: GuardKind)
    ensures Balance([], t, kind) == 0
  {
  }

  lemma BestSnoc(h: seq<Event>, e: Event, t: ThreadId, kind: GuardKind, n: nat)
    requires BestBalance(h, t, kind, n) && n < U32_MAX
    ensures BestBalance(h + [e], t, kind,
                        if EndsTurn(e, t) then 0
                        else if e == Requested(t, kind) then SaturatingAdd(n)
                        else if e == Released(t, kind) then SaturatingSub(n)
                        else n)
  {
    hide SameTurnFrom, Balance, EndsTurn;
    var all := h + [e];
    var m := if EndsTurn(e, t) then 0
             else if e == Requested(t, kind) then n + 1
             else if e == Released(t, kind) then SaturatingSub(n)
             else n;
    var k :| 0 <= k <= |h| && SameTurnFrom(h, t, k) && Balance(h[k..], t, kind) == n;
    assert all[|h| + 1..] == [];
    SameTurnSnoc(h, e, t, |h| + 1);
    assert Balance([], t, kind) == 0 by { NothingBalances(t, kind); }
    assert SameTurnFrom(all, t, |h| + 1);
    if !EndsTurn(e, t) {
      SameTurnSnoc(h, e, t, k);
      BalanceSnoc(h, e, t, kind, k);
      assert SameTurnFrom(all, t, k);
    }
    forall i | 0 <= i <= |all| && SameTurnFrom(all, t, i)
      ensures Balance(all[i..], t, kind) <= m
    {
      SameTurnSnoc(h, e, t, i);
      if i <= |h| {
        BalanceSnoc(h, e, t, kind, i);
      }
    }
  }

  /** Unless 2^32 - 1 requests come in, the requests counted as waiting are the largest surplus of requests
      over releases since any moment after the last end of a turn. */
  lemma {:induction false} PendingIsBestBalance(h: seq<Event>, t: ThreadId, kind: GuardKind)
    requires |h| <= 0xFFFF_FFFF
    ensures BestBalance(h, t, kind, Pending(h, t, kind)) && Pending(h, t, kind) <= |h|
  {
    if h == [] {
      assert SameTurnFrom(h, t, 0) && h[0..] == [];
    } else {
      var before, last := h[..|h| - 1], h[|h| - 1];
      assert h == before + [last];
      PendingIsBestBalance(before, t, kind);
      PendingSnoc(before, last, t, kind);
      BestSnoc(before, last, t, kind, Pending(before, t, kind));
    }
  }

  /** A request waits exactly when, since some moment after the last end of a turn, more were made than
      released. */
  lemma WaitsIff(h: seq<Event>, t: ThreadId, kind: GuardKind)
    requires |h| <= 0xFFFF_FFFF
    ensures Pending(h, t, kind) > 0 <==>
            exists i :: 0 <= i <= |h| && SameTurnFrom(h, t, i) && Balance(h[i..], t, kind) > 0
  {
    hide Pending, SameTurnFrom, Balance;
    PendingIsBestBalance(h, t, kind);
  }

  // ---------- The status ----------

  ghost predicate Waits(h: seq<Event>, t: ThreadId) {
    Pending(h, t, Permission) > 0 || Pending(h, t, Input) > 0
  }

  /** The status that a history calls for. */
  ghost predicate StatusFits(status: Status, h: seq<Event>, t: ThreadId) {
    match status
    case NotLoaded => !LoadedBy(h, t)
    case Active(flags) =>
      && LoadedBy(h, t) && (RunningBy(h, t) || Waits(h, t))
      && flags == (if Pending(h, t, Permission) > 0 then [WaitingOnApproval] else [])
                  + (if Pending(h, t, Input) > 0 then [WaitingOnUserInput] else [])
    case SystemError => LoadedBy(h, t) && !RunningBy(h, t) && !Waits(h, t) && FailedBy(h, t)
    case Idle => LoadedBy(h, t) && !RunningBy(h, t) && !Waits(h, t) && !FailedBy(h, t)
  }

  lemma OneStatusFits(one: Status, other: Status, h: seq<Event>, t: ThreadId)
    requires StatusFits(one, h, t) && StatusFits(other, h, t)
    ensures one == other
  {
    hide LoadedBy, RunningBy, FailedBy, Pending;
  }

  lemma RecordedStatusFits(runtime: Runtime, h: seq<Event>, t: ThreadId)
    requires Records(runtime, h, t)
    ensures StatusFits(StatusOf(runtime, t), h, t)
  {
    hide LoadedBy, RunningBy, FailedBy, Pending;
    if t in runtime {
      assert Counter(runtime[t], Permission) == Pending(h, t, Permission);
      assert Counter(runtime[t], Input) == Pending(h, t, Input);
    }
  }

  /** Over every run: a client sees a thread as not loaded exactly when its last event removed it or shut it
      down, or it has none; as active exactly when it is loaded and its turn runs or one of its requests
      waits, with the flags of those requests; as failed exactly when it is loaded, not active, and has
      failed since it was last started or removed; and as idle in all other cases. */
  lemma StatusByHistory(actions: seq<Action>, t: ThreadId)
    ensures var w, h := Run(IDLE_WATCH, actions), History(IDLE_WATCH, actions);
            forall status :: ClientStatus(w.sent, t) == status <==> StatusFits(status, h, t)
  {
    var w, h := Run(IDLE_WATCH, actions), History(IDLE_WATCH, actions);
    ClientsFollow(actions, t, Permission);
    assert Records(IDLE_WATCH.runtime, [], t);
    RunRecords(IDLE_WATCH, actions, [], t);
    assert [] + h == h;
    RecordedStatusFits(w.runtime, h, t);
    hide *;
    forall status | StatusFits(status, h, t)
      ensures status == ClientStatus(w.sent, t)
    {
      OneStatusFits(status, ClientStatus(w.sent, t), h, t);
    }
  }

  /** The published count is the number of the threads whose last turn event is a start. */
  lemma RunningByHistory(actions: seq<Action>)
    ensures var w, h := Run(IDLE_WATCH, actions), History(IDLE_WATCH, actions);
            && (forall t :: t in Running(w.runtime) <==> RunningBy(h, t))
            && w.runningCount == |Running(w.runtime)|
  {
    var w, h := Run(IDLE_WATCH, actions), History(IDLE_WATCH, actions);
    forall t
      ensures t in Running(w.runtime) <==> RunningBy(h, t)
    {
      assert Records(IDLE_WATCH.runtime, [], t);
      RunRecords(IDLE_WATCH, actions, [], t);
      assert [] + h == h;
      hide Run, History, RunningBy, LoadedBy, FailedBy, Pending;
    }
    ClientsFollow(actions, "", Permission);
  }
}
