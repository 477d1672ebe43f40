// Script lifecycle: starting, loading, stopping and reloading scripts while
// events are dispatched to them, at the granularity of the locks involved.
module Lifecycle {
  import opened Wrappers

  type Id = string

  /** Where StopScript is inside its critical section: what it does next. */
  datatype Stage = AtRouter | AtRegistry | AtScheduler

  /** Who holds the supervisor's lock, and what the holder still has to do. */
  datatype Lock =
    | Free
    | Adding(id: Id, handle: nat)
    | Registering(handle: nat)
    | Stopping(id: Id, handle: nat, stage: Stage)

  /** What happens to a handle's event channel. */
  datatype Event = Sent(handle: nat) | Closed(handle: nat)

  /**
   * owner lists the script of every handle ever created, handles being numbered in order of creation.
   * routes keeps, per script, the handle whose routes the router holds. loading are the handles whose load
   * goroutine still waits; toClose those a StopScript has unlinked and will close. A dispatch, holding the
   * registry's read lock, still has some of the runners it read there to send to.
   */
  datatype State = State(
    owner: seq<Id>, scripts: map<Id, nat>, registry: map<Id, nat>, routes: map<Id, nat>,
    lock: Lock, loading: set<nat>, toClose: set<nat>, dispatches: map<nat, set<nat>>, log: seq<Event>)

  const EMPTY := State([], map[], map[], map[], Free, {}, {}, map[], [])

  datatype Action =
    | Start(id: Id)                    // StartScript takes the lock
    | AddRunner                        // Registry.Add, then unlock
    | AfterLoad(handle: nat)           // afterLoad takes the lock and compares the handle
    | RegisterRoutes(empty: bool)      // Router.Register, then unlock
    | AbandonLoad(handle: nat)         // the load goroutine sees its context cancelled
    | Stop(id: Id)                     // StopScript takes the lock
    | UnregisterRoutes
    | RemoveRunner                     // Registry.Remove
    | RemoveTimers                     // Scheduler.RemoveScript, then unlock
    | Close(handle: nat)
    | BeginDispatch(d: nat)            // a dispatch takes the read lock
    | Send(d: nat, handle: nat)
    | EndDispatch(d: nat)

  /** The write lock of the registry is only granted while no dispatch holds the read lock. */
  predicate Enabled(s: State, a: Action) {
    match a
    case Start(_) => s.lock.Free?
    case AddRunner => s.lock.Adding? && s.dispatches == map[]
    case AfterLoad(h) => s.lock.Free? && h in s.loading && h < |s.owner|
    case RegisterRoutes(_) => s.lock.Registering? && s.lock.handle < |s.owner|
    case AbandonLoad(h) => h in s.loading
    case Stop(_) => s.lock.Free?
    case UnregisterRoutes => s.lock.Stopping? && s.lock.stage.AtRouter?
    case RemoveRunner => s.lock.Stopping? && s.lock.stage.AtRegistry? && s.dispatches == map[]
    case RemoveTimers => s.lock.Stopping? && s.lock.stage.AtScheduler?
    case Close(h) => h in s.toClose
    case BeginDispatch(d) => d !in s.dispatches
    case Send(d, h) => d in s.dispatches && h in s.dispatches[d]
    case EndDispatch(d) => d in s.dispatches
  }

  function Step(s: State, a: Action): State
    requires Enabled(s, a)
  {
    match a
    case Start(id) =>
      if id in s.scripts then s
      else
        var h := |s.owner|;
        s.(owner := s.owner + [id], scripts := s.scripts[id := h], lock := Adding(id, h))
    case AddRunner =>
      s.(registry := s.registry[s.lock.id := s.lock.handle], loading := s.loading + {s.lock.handle}, lock := Free)
    case AfterLoad(h) =>
      var id := s.owner[h];
      s.(loading := s.loading - {h},
         lock := if id in s.scripts && s.scripts[id] == h then Registering(h) else Free)
    case RegisterRoutes(empty) =>
      var h, id := s.lock.handle, s.owner[s.lock.handle];
      s.(routes := if empty then s.routes - {id} else s.routes[id := h], lock := Free)
    case AbandonLoad(h) => s.(loading := s.loading - {h})
    case Stop(id) =>
      if id in s.scripts then s.(scripts := s.scripts - {id}, lock := Stopping(id, s.scripts[id], AtRouter)) else s
    case UnregisterRoutes => s.(routes := s.routes - {s.lock.id}, lock := s.lock.(stage := AtRegistry))
    case RemoveRunner => s.(registry := s.registry - {s.lock.id}, lock := s.lock.(stage := AtScheduler))
    case RemoveTimers => s.(toClose := s.toClose + {s.lock.handle}, lock := Free)
    case Close(h) => s.(toClose := s.toClose - {h}, log := s.log + [Closed(h)])
    case BeginDispatch(d) => s.(dispatches := s.dispatches[d := s.registry.Values])
    case Send(d, h) => s.(dispatches := s.dispatches[d := s.dispatches[d] - {h}], log := s.log + [Sent(h)])
    case EndDispatch(d) => s.(dispatches := s.dispatches - {d})
  }

  function Run(s: State, actions: seq<Action>): State {
    if actions == [] then s
    else
      var before, a := Run(s, actions[..|actions| - 1]), actions[|actions| - 1];
      if Enabled(before, a) then Step(before, a) else before
  }

  // ---------- Invariant ----------

  /** m leads from the script of h to h. */
  predicate Holds(s: State, m: map<Id, nat>, h: nat)
    requires h < |s.owner|
  {
    s.owner[h] in m && m[s.owner[h]] == h
  }

  predicate BeingStopped(s: State, h: nat) {
    s.lock.Stopping? && s.lock.handle == h
  }

  predicate IsClosed(s: State, h: nat) {
    Closed(h) in s.log
  }

  predicate Mentioned(s: State, h: nat) {
    h in s.toClose || IsClosed(s, h) || h in s.loading
  }

  ghost predicate HandlesOwned(s: State) {
    && (forall id | id in s.scripts :: s.scripts[id] < |s.owner| && s.owner[s.scripts[id]] == id)
    && (forall h: nat | Mentioned(s, h) :: h < |s.owner|)
  }

  predicate LockSound(s: State) {
    match s.lock
    case Free => s.registry == s.scripts
    case Adding(id, h) => id in s.scripts && s.scripts[id] == h && s.registry == s.scripts - {id}
    case Registering(h) => s.registry == s.scripts && h < |s.owner| && Holds(s, s.scripts, h)
    case Stopping(id, h, stage) =>
      && h < |s.owner| && s.owner[h] == id && id !in s.scripts
      && s.registry == if stage.AtScheduler? then s.scripts else s.scripts[id := h]
  }

  /** A script's routes were registered by its running handle, or by the one a stop is about to unregister. */
  ghost predicate RoutesSound(s: State) {
    forall id | id in s.routes ::
      || (id in s.scripts && s.scripts[id] == s.routes[id])
      || s.lock == Stopping(id, s.routes[id], AtRouter)
  }

  predicate WillSend(s: State, d: nat, h: nat) {
    d in s.dispatches && h in s.dispatches[d]
  }

  ghost predicate DispatchesSound(s: State) {
    forall d: nat, h: nat | WillSend(s, d, h) :: h < |s.owner| && Holds(s, s.registry, h)
  }

  /** Each handle is at exactly one point of its life: running, being stopped, waiting to be closed, closed. */
  predicate OneStage(s: State, h: nat)
    requires h < |s.owner|
  {
    if Holds(s, s.scripts, h) then !BeingStopped(s, h) && h !in s.toClose && !IsClosed(s, h)
    else if BeingStopped(s, h) then h !in s.toClose && !IsClosed(s, h)
    else h in s.toClose <==> !IsClosed(s, h)
  }

  ghost predicate StagesSound(s: State) {
    forall h: nat | h < |s.owner| :: OneStage(s, h)
  }

  /** Nothing happens to a channel once it is closed. */
  ghost predicate NothingAfterClose(log: seq<Event>) {
    forall i, j | 0 <= i < j < |log| && log[i].Closed? :: log[j].handle != log[i].handle
  }

  ghost predicate Inv(s: State) {
    HandlesOwned(s) && LockSound(s) && RoutesSound(s) && DispatchesSound(s) && StagesSound(s)
        && NothingAfterClose(s.log)
  }

  lemma StepOwned(s: State, a: Action)
    requires Inv(s) && Enabled(s, a)
    ensures HandlesOwned(Step(s, a))
  {
    forall h: nat | Mentioned(Step(s, a), h) ensures h < |Step(s, a).owner| {
      StepMentioned(s, a, h);
    }
  }

  lemma StepMentioned(s: State, a: Action, h: nat)
    requires Inv(s) && Enabled(s, a) && Mentioned(Step(s, a), h)
    ensures h < |Step(s, a).owner|
  {
    if Mentioned(s, h) {
    } else if a.AddRunner? {
      assert Holds(s, s.scripts, s.lock.handle);
    } else if a.Close? {
      assert Mentioned(s, a.handle);
    }
  }

  lemma TakeOutPutBack(m: map<Id, nat>, id: Id, h: nat)
    ensures id in m && m[id] == h ==> (m - {id})[id := h] == m
    ensures id !in m ==> m[id := h] - {id} == m
  {
  }

  lemma StepLock(s: State, a: Action)
    requires Inv(s) && Enabled(s, a)
    ensures LockSound(Step(s, a))
  {
    match a
    case Start(id) => TakeOutPutBack(s.scripts, id, |s.owner|);
    case Stop(id) => if id in s.scripts { TakeOutPutBack(s.scripts, id, s.scripts[id]); }
    case AddRunner => TakeOutPutBack(s.scripts, s.lock.id, s.lock.handle);
    case RemoveRunner => TakeOutPutBack(s.scripts, s.lock.id, s.lock.handle);
    case _ =>
  }

  lemma StepRoutes(s: State, a: Action)
    requires Inv(s) && Enabled(s, a)
    ensures RoutesSound(Step(s, a))
  {
  }

  lemma RegistryOwned(s: State)
    requires HandlesOwned(s) && LockSound(s)
    ensures forall id | id in s.registry :: s.registry[id] < |s.owner| && s.owner[s.registry[id]] == id
  {
  }

  lemma StepDispatch(s: State, a: Action, d: nat, h: nat)
    requires Inv(s) && Enabled(s, a) && WillSend(Step(s, a), d, h)
    ensures h < |Step(s, a).owner| && Holds(Step(s, a), Step(s, a).registry, h)
  {
    if a == BeginDispatch(d) {
      RegistryOwned(s);
    } else {
      assert WillSend(s, d, h);
    }
  }

  lemma StepDispatches(s: State, a: Action)
    requires Inv(s) && Enabled(s, a)
    ensures DispatchesSound(Step(s, a))
  {
    forall d: nat, h: nat | WillSend(Step(s, a), d, h)
      ensures h < |Step(s, a).owner| && Holds(Step(s, a), Step(s, a).registry, h)
    {
      StepDispatch(s, a, d, h);
    }
  }

  lemma StepStageLog(s: State, a: Action, h: nat)
    requires Inv(s) && Enabled(s, a) && h < |s.owner| && (a.Send? || a.Close?)
    ensures OneStage(Step(s, a), h)
  {
    assert OneStage(s, h);
  }

  lemma StepStageStart(s: State, id: Id, h: nat)
    requires Inv(s) && Enabled(s, Start(id)) && h < |Step(s, Start(id)).owner|
    ensures OneStage(Step(s, Start(id)), h)
  {
    if h < |s.owner| {
      assert OneStage(s, h);
    } else {
      assert !Mentioned(s, h);
    }
  }

  lemma StepStage(s: State, a: Action, h: nat)
    requires Inv(s) && Enabled(s, a) && h < |Step(s, a).owner|
    ensures OneStage(Step(s, a), h)
  {
    if a.Send? || a.Close? {
      StepStageLog(s, a, h);
    } else if a.Start? {
      StepStageStart(s, a.id, h);
    } else {
      assert OneStage(s, h);
    }
  }

  /** The channel a dispatch is about to send on is open. */
  lemma SendIsSafe(s: State, d: nat, h: nat)
    requires Inv(s) && Enabled(s, Send(d, h))
    ensures !IsClosed(s, h)
  {
    assert WillSend(s, d, h);
    assert OneStage(s, h);
  }

  lemma CloseIsFirst(s: State, h: nat)
    requires Inv(s) && Enabled(s, Close(h))
    ensures !IsClosed(s, h)
  {
    assert Mentioned(s, h) && OneStage(s, h);
  }

  lemma StepLog(s: State, a: Action)
    requires Inv(s) && Enabled(s, a)
    ensures NothingAfterClose(Step(s, a).log)
  {
    match a
    case Send(d, h) => SendIsSafe(s, d, h); LogExtend(s.log, Sent(h));
    case Close(h) => CloseIsFirst(s, h); LogExtend(s.log, Closed(h));
    case _ =>
  }

  lemma LogExtend(log: seq<Event>, e: Event)
    requires NothingAfterClose(log) && Closed(e.handle) !in log
    ensures NothingAfterClose(log + [e])
  {
    forall i | 0 <= i < |log| && log[i].Closed? ensures log[i].handle != e.handle {
      assert log[i] in log && log[i] == Closed(log[i].handle);
    }
  }

  lemma StepKeepsInv(s: State, a: Action)
    requires Inv(s) && Enabled(s, a)
    ensures Inv(Step(s, a))
  {
    StepOwned(s, a);
    StepLock(s, a);
    StepRoutes(s, a);
    StepDispatches(s, a);
    forall h: nat | h < |Step(s, a).owner| ensures OneStage(Step(s, a), h) {
      StepStage(s, a, h);
    }
    StepLog(s, a);
  }

  // ---------- What every run guarantees ----------

  lemma {:induction false} RunKeepsInv(actions: seq<Action>)
    ensures Inv(Run(EMPTY, actions))
  {
    if actions != [] {
      var rest, a := actions[..|actions| - 1], actions[|actions| - 1];
      RunKeepsInv(rest);
      if Enabled(Run(EMPTY, rest), a) { StepKeepsInv(Run(EMPTY, rest), a); }
    }
  }

  /** No event is sent on a closed channel, and no channel is closed twice. */
  lemma NoSendAfterClose(actions: seq<Action>, i: nat, j: nat)
    requires i < j < |Run(EMPTY, actions).log| && Run(EMPTY, actions).log[i].Closed?
    ensures Run(EMPTY, actions).log[j].handle != Run(EMPTY, actions).log[i].handle
  {
    RunKeepsInv(actions);
  }

  /** Whenever the supervisor's lock is free, its runners are the registry's, and routes belong to running handles. */
  lemma FreeLockAgreement(actions: seq<Action>)
    requires Run(EMPTY, actions).lock.Free?
    ensures var s := Run(EMPTY, actions);
            && s.registry == s.scripts
            && (forall id | id in s.routes :: id in s.scripts && s.routes[id] == s.scripts[id])
  {
    RunKeepsInv(actions);
  }

  /** Mid-stop, a script may still be routed to the handle being stopped, but to no other. */
  lemma RoutesMidStop(actions: seq<Action>, id: Id)
    requires id in Run(EMPTY, actions).routes && id !in Run(EMPTY, actions).scripts
    ensures Run(EMPTY, actions).lock == Stopping(id, Run(EMPTY, actions).routes[id], AtRouter)
  {
    RunKeepsInv(actions);
  }

  /** No handle is forgotten: once no stop is under way, each one is running or its channel closed. */
  lemma EveryHandleAccountedFor(actions: seq<Action>, h: nat)
    requires var s := Run(EMPTY, actions); h < |s.owner| && s.toClose == {} && !s.lock.Stopping?
    ensures var s := Run(EMPTY, actions); Holds(s, s.scripts, h) <==> !IsClosed(s, h)
  {
    RunKeepsInv(actions);
    assert OneStage(Run(EMPTY, actions), h);
  }

  /** A load that finishes after its script was stopped or reloaded registers nothing. */
  lemma StaleLoadRegistersNothing(s: State, h: nat)
    requires Inv(s) && Enabled(s, AfterLoad(h)) && (h in s.toClose || IsClosed(s, h))
    ensures Step(s, AfterLoad(h)) == s.(loading := s.loading - {h})
  {
    assert OneStage(s, h);
  }

  // ---------- A dispatch reaches every registered runner ----------

  /** A dispatch that nothing interleaves with can send to any runner registered when it took the read lock. */
  lemma DispatchReaches(s: State, d: nat, id: Id)
    requires Inv(s) && d !in s.dispatches && id in s.registry
    ensures Run(s, [BeginDispatch(d), Send(d, s.registry[id])]).log == s.log + [Sent(s.registry[id])]
  {
    assert s.registry[id] in s.registry.Values;
    RunTwo(s, [], BeginDispatch(d), Send(d, s.registry[id]));
    assert [] + [BeginDispatch(d), Send(d, s.registry[id])] == [BeginDispatch(d), Send(d, s.registry[id])];
  }

  /** The handles dispatch d sends to during a run. */
  function SentBy(s: State, moves: seq<Action>, d: nat): seq<nat> {
    if moves == [] then []
    else
      var rest, a := moves[..|moves| - 1], moves[|moves| - 1];
      SentBy(s, rest, d) + if a.Send? && a.d == d && Enabled(Run(s, rest), a) then [a.handle] else []
  }

  lemma StepDispatchConserves(s: State, a: Action, d: nat)
    requires d in s.dispatches && Enabled(s, a) && a != EndDispatch(d)
    ensures d in Step(s, a).dispatches
    ensures var left := Step(s, a).dispatches[d];
            if a.Send? && a.d == d then multiset(s.dispatches[d]) == multiset(left) + multiset{a.handle}
            else left == s.dispatches[d]
  {
    if a.Send? && a.d == d {
      assert s.dispatches[d] == s.dispatches[d] - {a.handle} + {a.handle};
    }
  }

  /** Whatever happens meanwhile, a dispatch has sent once to each of its runners or has yet to send to it. */
  lemma {:induction false} DispatchConserves(s: State, moves: seq<Action>, d: nat)
    requires d in s.dispatches && EndDispatch(d) !in moves
    ensures var t := Run(s, moves);
            d in t.dispatches && multiset(SentBy(s, moves, d)) + multiset(t.dispatches[d]) == multiset(s.dispatches[d])
  {
    if moves != [] {
      var rest, a := moves[..|moves| - 1], moves[|moves| - 1];
      DispatchConserves(s, rest, d);
      var before := Run(s, rest);
      if Enabled(before, a) { StepDispatchConserves(before, a, d); }
    }
  }

  /** So every runner registered when it began is reached exactly once, unless the dispatch ends or skips it. */
  lemma DispatchReachesEachOnce(s: State, moves: seq<Action>, d: nat)
    requires d !in s.dispatches && EndDispatch(d) !in moves
    ensures var begun := Run(s, [BeginDispatch(d)]);
            var t := Run(begun, moves);
            && d in t.dispatches
            && multiset(SentBy(begun, moves, d)) + multiset(t.dispatches[d]) == multiset(s.registry.Values)
            && (forall h: nat | h in s.registry.Values :: h !in SentBy(begun, moves, d) ==> Enabled(t, Send(d, h)))
  {
    RunSnoc(s, [], BeginDispatch(d));
    assert [] + [BeginDispatch(d)] == [BeginDispatch(d)];
    var begun := Run(s, [BeginDispatch(d)]);
    DispatchConserves(begun, moves, d);
    forall h: nat | h in s.registry.Values
      ensures h !in SentBy(begun, moves, d) ==> Enabled(Run(begun, moves), Send(d, h))
    {
      assert multiset(s.registry.Values)[h] == 1;
    }
  }

  // ---------- A load registers its script's routes, at most once ----------

  /** A load that finishes while its handle is still its script's current one registers the script's routes. */
  lemma LoadRegisters(s: State, h: nat, empty: bool)
    requires s.lock.Free? && h in s.loading && h < |s.owner| && Holds(s, s.scripts, h)
    ensures var t := Run(s, [AfterLoad(h), RegisterRoutes(empty)]);
            && t.routes == (if empty then s.routes - {s.owner[h]} else s.routes[s.owner[h] := h])
            && t == s.(routes := t.routes, loading := s.loading - {h})
  {
    RunTwo(s, [], AfterLoad(h), RegisterRoutes(empty));
    assert [] + [AfterLoad(h), RegisterRoutes(empty)] == [AfterLoad(h), RegisterRoutes(empty)];
  }

  /** No load of h is in the middle of anything, nor about to begin. */
  predicate Apart(s: State, h: nat) {
    h < |s.owner| && s.lock != Registering(h) && (s.lock.Adding? ==> s.lock.handle != h)
  }

  predicate LoadOver(s: State, h: nat) {
    h !in s.loading && Apart(s, h)
  }

  lemma StepApart(s: State, a: Action, h: nat)
    requires Inv(s) && Enabled(s, a) && h in Step(s, a).loading && (h in s.loading ==> Apart(s, h))
    ensures Apart(Step(s, a), h)
  {
    if h in s.loading {
      assert Mentioned(s, h);
    } else {
      assert a == AddRunner && s.lock.handle == h && Holds(s, s.scripts, h);
    }
  }

  lemma {:induction false} LoadingIsApart(actions: seq<Action>, h: nat)
    requires h in Run(EMPTY, actions).loading
    ensures Apart(Run(EMPTY, actions), h)
  {
    var rest, a := actions[..|actions| - 1], actions[|actions| - 1];
    var before := Run(EMPTY, rest);
    RunKeepsInv(rest);
    if h in before.loading { LoadingIsApart(rest, h); }
    if Enabled(before, a) { StepApart(before, a, h); }
  }

  lemma StepOver(s: State, a: Action, h: nat)
    requires LoadOver(s, h) && Enabled(s, a)
    ensures LoadOver(Step(s, a), h)
  {
  }

  lemma {:induction false} OverStaysOver(s: State, moves: seq<Action>, h: nat)
    requires LoadOver(s, h)
    ensures LoadOver(Run(s, moves), h)
  {
    if moves != [] {
      var rest, a := moves[..|moves| - 1], moves[|moves| - 1];
      var before := Run(s, rest);
      OverStaysOver(s, rest, h);
      if Enabled(before, a) { StepOver(before, a, h); }
    }
  }

  /** A load whose context is cancelled first never registers anything, whatever happens after. */
  lemma AbandonedLoadRegistersNothing(actions: seq<Action>, h: nat, moves: seq<Action>)
    requires h in Run(EMPTY, actions).loading
    ensures var s := Run(EMPTY, actions);
            var t := Run(Run(s, [AbandonLoad(h)]), moves);
            h !in t.loading && t.lock != Registering(h)
  {
    var s := Run(EMPTY, actions);
    LoadingIsApart(actions, h);
    RunSnoc(s, [], AbandonLoad(h));
    assert [] + [AbandonLoad(h)] == [AbandonLoad(h)];
    OverStaysOver(Run(s, [AbandonLoad(h)]), moves, h);
  }

  function StopSteps(h: nat, id: Id): seq<Action> {
    [Stop(id), UnregisterRoutes, RemoveRunner, RemoveTimers, Close(h)]
  }

  /** The steps of a reload that nothing interleaves with. */
  function ReloadSteps(s: State, id: Id): seq<Action> {
    (if id in s.scripts then StopSteps(s.scripts[id], id) else [])
    + [Start(id), AddRunner]
  }

  /**
   * A reload replaces the script's handle by a new one, leaves it without routes until it has loaded, and touches
   * no other script.
   */
  lemma ReloadReplaces(s: State, id: Id)
    requires Inv(s) && s.lock.Free? && s.dispatches == map[]
    ensures var t := Run(s, ReloadSteps(s, id));
            t == s.(owner := s.owner + [id], scripts := s.scripts[id := |s.owner|],
                registry := s.scripts[id := |s.owner|],
                    routes := s.routes - {id}, loading := s.loading + {|s.owner|},
                    log := if id in s.scripts then s.log + [Closed(s.scripts[id])] else s.log)
  {
    if id in s.scripts {
      StopAndClose(s, id);
      StartAfterStop(s, id);
    } else {
      StartAndAdd(s, [], id);
      assert s.routes - {id} == s.routes && [] + [Start(id), AddRunner] == ReloadSteps(s, id);
    }
  }

  lemma StartAfterStop(s: State, id: Id)
    requires id in s.scripts && s.registry == s.scripts && s.lock.Free? && s.dispatches == map[]
    requires Run(s, StopSteps(s.scripts[id], id))
             == s.(scripts := s.scripts - {id}, registry := s.registry - {id}, routes := s.routes - {id},
                   log := s.log + [Closed(s.scripts[id])])
    ensures Run(s, StopSteps(s.scripts[id], id) + [Start(id), AddRunner])
            == s.(owner := s.owner + [id], scripts := s.scripts[id := |s.owner|],
                registry := s.scripts[id := |s.owner|],
                  routes := s.routes - {id}, loading := s.loading + {|s.owner|}, log := s.log + [Closed(s.scripts[id])])
  {
    StartAndAdd(s, StopSteps(s.scripts[id], id), id);
    assert (s.scripts - {id})[id := |s.owner|] == s.scripts[id := |s.owner|];
  }

  /** StopScript's critical section, taken as a whole. */
  lemma StopSection(s: State, id: Id)
    requires s.lock.Free? && s.dispatches == map[] && id in s.scripts
    ensures Run(s, [Stop(id), UnregisterRoutes, RemoveRunner, RemoveTimers])
            == s.(scripts := s.scripts - {id}, registry := s.registry - {id}, routes := s.routes - {id},
                  toClose := s.toClose + {s.scripts[id]})
  {
    assert [] + [Stop(id), UnregisterRoutes] == [Stop(id), UnregisterRoutes];
    RunTwo(s, [], Stop(id), UnregisterRoutes);
    assert [Stop(id), UnregisterRoutes] + [RemoveRunner, RemoveTimers]
        == [Stop(id), UnregisterRoutes, RemoveRunner, RemoveTimers];
    RunTwo(s, [Stop(id), UnregisterRoutes], RemoveRunner, RemoveTimers);
  }

  lemma StopAndClose(s: State, id: Id)
    requires Inv(s) && s.lock.Free? && s.dispatches == map[] && id in s.scripts
    ensures Run(s, StopSteps(s.scripts[id], id))
            == s.(scripts := s.scripts - {id}, registry := s.registry - {id}, routes := s.routes - {id},
                  log := s.log + [Closed(s.scripts[id])])
  {
    var h := s.scripts[id];
    StopSection(s, id);
    RunSnoc(s, [Stop(id), UnregisterRoutes, RemoveRunner, RemoveTimers], Close(h));
    assert [Stop(id), UnregisterRoutes, RemoveRunner, RemoveTimers] + [Close(h)] == StopSteps(h, id);
    assert OneStage(s, h) && Holds(s, s.scripts, h);
    assert s.toClose + {h} - {h} == s.toClose;
  }

  lemma RunTwo(s: State, actions: seq<Action>, a: Action, b: Action)
    requires Enabled(Run(s, actions), a) && Enabled(Step(Run(s, actions), a), b)
    ensures Run(s, actions + [a, b]) == Step(Step(Run(s, actions), a), b)
  {
    RunSnoc(s, actions, a);
    RunSnoc(s, actions + [a], b);
    assert actions + [a, b] == actions + [a] + [b];
  }

  lemma RunSnoc(s: State, actions: seq<Action>, a: Action)
    ensures Run(s, actions + [a]) == if Enabled(Run(s, actions), a) then Step(Run(s, actions), a) else Run(s, actions)
  {
    assert (actions + [a])[..|actions|] == actions;
  }

  lemma StartAndAdd(s: State, actions: seq<Action>, id: Id)
    requires var t := Run(s, actions); t.lock.Free? && t.dispatches == map[] && id !in t.scripts
    ensures var t := Run(s, actions);
            Run(s, actions + [Start(id), AddRunner])
            == t.(owner := t.owner + [id], scripts := t.scripts[id := |t.owner|],
                  registry := t.registry[id := |t.owner|], loading := t.loading + {|t.owner|}, lock := Free)
  {
    RunSnoc(s, actions, Start(id));
    RunSnoc(s, actions + [Start(id)], AddRunner);
    assert actions + [Start(id), AddRunner] == actions + [Start(id)] + [AddRunner];
  }

  // ---------- And every stop ends ----------

  /** Steps of goroutines already under way: the holder of the lock, the closers, and dispatches that finish. */
  predicate UnderWay(a: Action) {
    a.AddRunner? || a.RegisterRoutes? || a.UnregisterRoutes? || a.RemoveRunner? || a.RemoveTimers? || a.Close?
        || a.EndDispatch?
  }

  function StepsOfLock(l: Lock): nat {
    match l
    case Free => 0
    case Adding(_, _) => 1
    case Registering(_) => 1
    case Stopping(_, _, stage) => if stage.AtRouter? then 4 else if stage.AtRegistry? then 3 else 2
  }

  function Remaining(s: State): nat {
    StepsOfLock(s.lock) + |s.toClose| + |s.dispatches|
  }

  lemma Cardinalities(s: set<nat>, m: map<nat, set<nat>>, x: nat)
    ensures |s + {x}| <= |s| + 1 && (x in s ==> |s - {x}| == |s| - 1)
    ensures x in m ==> |m - {x}| == |m| - 1
  {
    assert x in s ==> s + {x} == s;
    assert (m - {x}).Keys == m.Keys - {x};
  }

  lemma UnderWayEnds(s: State, a: Action)
    requires Enabled(s, a) && UnderWay(a)
    ensures Remaining(Step(s, a)) < Remaining(s)
    ensures Step(s, a).scripts == s.scripts && Step(s, a).owner == s.owner
  {
    match a
    case RemoveTimers => Cardinalities(s.toClose, s.dispatches, s.lock.handle);
    case Close(h) => Cardinalities(s.toClose, s.dispatches, h);
    case EndDispatch(d) => Cardinalities(s.toClose, s.dispatches, d);
    case _ =>
  }

  /** The lock is free, nothing is left to close or to dispatch, and exactly the handles not running are closed. */
  ghost predicate AtRest(s: State) {
    && s.lock.Free? && s.toClose == {} && s.dispatches == map[] && s.registry == s.scripts
    && (forall h: nat | h < |s.owner| :: IsClosed(s, h) <==> !Holds(s, s.scripts, h))
  }

  /** With nothing under way the lock is free, no channel is left to close and no dispatch holds the read lock. */
  lemma NothingUnderWay(s: State)
    requires Inv(s) && forall a | UnderWay(a) :: !Enabled(s, a)
    ensures AtRest(s)
  {
    if d :| d in s.dispatches { assert Enabled(s, EndDispatch(d)); }
    assert s.dispatches.Keys == {};
    assert !Enabled(s, AddRunner) && !Enabled(s, RegisterRoutes(true)) && !Enabled(s, UnregisterRoutes);
    assert !Enabled(s, RemoveRunner) && !Enabled(s, RemoveTimers);
    if h: nat :| h in s.toClose { assert Enabled(s, Close(h)); }
    forall h: nat | h < |s.owner| ensures IsClosed(s, h) <==> !Holds(s, s.scripts, h) { assert OneStage(s, h); }
  }

  /**
   * From every reachable state the steps under way alone lead to rest: every handle stopped by then has its channel
   * closed, the others run on.
   */
  lemma {:induction false} EveryStopEnds(s: State) returns (more: seq<Action>)
    requires Inv(s)
    ensures forall a | a in more :: UnderWay(a)
    ensures var t := Run(s, more);
            Inv(t) && AtRest(t) && t.scripts == s.scripts && t.owner == s.owner
    decreases Remaining(s)
  {
    if a :| UnderWay(a) && Enabled(s, a) {
      StepKeepsInv(s, a);
      UnderWayEnds(s, a);
      var rest := EveryStopEnds(Step(s, a));
      more := [a] + rest;
      RunCons(s, a, rest);
    } else {
      more := [];
      NothingUnderWay(s);
    }
  }

  lemma {:induction false} RunCons(s: State, a: Action, rest: seq<Action>)
    requires Enabled(s, a)
    ensures Run(s, [a] + rest) == Run(Step(s, a), rest)
  {
    if rest == [] {
      RunSnoc(s, [], a);
      assert [a] + rest == [] + [a];
    } else {
      var front, last := rest[..|rest| - 1], rest[|rest| - 1];
      assert rest == front + [last] && [a] + rest == ([a] + front) + [last];
      RunCons(s, a, front);
      RunSnoc(s, [a] + front, last);
      RunSnoc(Step(s, a), front, last);
    }
  }

  // ---------- The supervisor, the registry and the router ----------

  /** A script's runner, as far as its event channel goes. */
  class Runner {
    const number: nat
    const id: Id
    var closed: bool
    var sent: nat

    constructor (number: nat, id: Id)
      ensures this.number == number && this.id == id && !closed
    {
      this.number, this.id, closed, sent := number, id, false, 0;
    }

    /** Sending on a closed channel panics. */
    method Send()
      requires !closed
      modifies `sent
      ensures sent == old(sent) + 1
    {
      sent := sent + 1;
    }

    /** So does closing one twice. */
    method Close()
      requires !closed
      modifies `closed
      ensures closed
    {
      closed := true;
    }
  }

  function NumberOf(r: Runner): nat {
    r.number
  }

  function NumbersOf(rs: set<Runner>): set<nat> {
    Image(rs, NumberOf)
  }

  function SentTo(rs: seq<Runner>): (log: seq<Event>)
    ensures |log| == |rs| && forall i | 0 <= i < |rs| :: log[i] == Sent(rs[i].number)
  {
    seq(|rs|, i requires 0 <= i < |rs| => Sent(rs[i].number))
  }

  function Owners(made: seq<Runner>): (q: seq<Id>)
    ensures |q| == |made| && forall i | 0 <= i < |q| :: q[i] == made[i].id
  {
    seq(|made|, i requires 0 <= i < |made| => made[i].id)
  }

  /** Who holds the supervisor's lock, by its runner. */
  datatype Holder =
    | Nobody
    | Adder(runner: Runner)
    | Registrar(runner: Runner)
    | Stopper(runner: Runner, stage: Stage)

  function LockOf(h: Holder): Lock {
    match h
    case Nobody => Free
    case Adder(r) => Adding(r.id, r.number)
    case Registrar(r) => Registering(r.number)
    case Stopper(r, stage) => Stopping(r.id, r.number, stage)
  }

  lemma SameNumber(made: seq<Runner>, a: Runner, b: Runner)
    requires NumberedBy(made, NumberOf) && a in made && b in made
    ensures a.number < |made| && made[a.number] == a && (a.number == b.number ==> a == b)
  {
    var i: nat :| i < |made| && made[i] == a;
    var j: nat :| j < |made| && made[j] == b;
  }

  lemma OwnersSnoc(made: seq<Runner>, r: Runner)
    ensures Owners(made + [r]) == Owners(made) + [r.id]
  {
  }

  lemma ImagePlus(s: set<Runner>, r: Runner)
    ensures NumbersOf(s + {r}) == NumbersOf(s) + {r.number}
  {
  }

  lemma Overwrite(m: map<nat, set<Runner>>, d: nat, a: set<Runner>, b: set<Runner>)
    ensures m[d := a][d := b] == m[d := b]
    ensures d !in m ==> m[d := b] - {d} == m
  {
  }

  /** made and log only record the runners made and what happened to their channels. */
  class Supervisor {
    var made: seq<Runner>
    var scripts: map<Id, Runner>
    var registry: map<Id, Runner>
    var routes: map<Id, Runner>
    var holder: Holder
    var loading: set<Runner>
    var toClose: set<Runner>
    var dispatches: map<nat, set<Runner>>
    var log: seq<Event>

    function View(): State
      reads this
    {
      State(Owners(made), MapValues(scripts, NumberOf), MapValues(registry, NumberOf), MapValues(routes, NumberOf),
            LockOf(holder), NumbersOf(loading), NumbersOf(toClose), MapValues(dispatches, NumbersOf), log)
    }

    ghost function Made(): set<Runner>
      reads `made
    {
      set r | r in made
    }

    /** Every runner referred to is one of those made. */
    ghost predicate Shaped()
      reads this
    {
      && NumberedBy(made, NumberOf)
      && (forall id | id in scripts :: scripts[id] in Made() && scripts[id].id == id)
      && registry.Values <= Made() && routes.Values <= Made()
      && (!holder.Nobody? ==> holder.runner in Made())
      && loading <= Made() && toClose <= Made()
      && (forall d | d in dispatches :: dispatches[d] <= Made())
    }

    ghost predicate Valid()
      reads this, Made()
    {
      && Shaped()
      && (forall e | e in log :: e.handle < |made|)
      && (forall r | r in Made() :: r.closed <==> Closed(r.number) in log)
    }

    constructor ()
      ensures Valid() && Inv(View()) && made == [] && View() == EMPTY
    {
      made, log, holder := [], [], Nobody;
      scripts, registry, routes := map[], map[], map[];
      loading, toClose, dispatches := {}, {}, map[];
      new;
      RunKeepsInv([]);
      assert Owners([]) == [];
    }

    /** The channel of a runner a dispatch has read under the registry's read lock is open. */
    lemma ReadRunnerIsOpen(d: nat, r: Runner)
      requires Valid() && Inv(View()) && d in dispatches && r in dispatches[d]
      ensures !r.closed && Enabled(View(), Send(d, r.number))
    {
      assert r.number in NumbersOf(dispatches[d]);
      SendIsSafe(View(), d, r.number);
    }

    /** And so is the channel of one a stop is about to close. */
    lemma StoppedRunnerIsOpen(r: Runner)
      requires Valid() && Inv(View()) && r in toClose
      ensures !r.closed && Enabled(View(), Close(r.number))
    {
      assert r.number in NumbersOf(toClose);
      CloseIsFirst(View(), r.number);
    }

    method SendTo(d: nat, r: Runner)
      requires Valid() && d in dispatches && r in dispatches[d] && !r.closed && Enabled(View(), Send(d, r.number))
      modifies `dispatches, `log, r`sent
      ensures Valid() && View() == Step(old(View()), Send(d, r.number))
      ensures dispatches == old(dispatches)[d := old(dispatches[d]) - {r}]
    {
      ImageMinus(made, dispatches[d], NumberOf, r);
      MapValuesUpdate(dispatches, NumbersOf, d, dispatches[d] - {r});
      r.Send();
      dispatches := dispatches[d := dispatches[d] - {r}];
      log := log + [Sent(r.number)];
    }

    method CloseChannel(r: Runner)
      requires Valid() && r in toClose && !r.closed && Enabled(View(), Close(r.number))
      modifies this, r
      ensures Valid() && made == old(made) && View() == Step(old(View()), Close(r.number))
    {
      ImageMinus(made, toClose, NumberOf, r);
      r.Close();
      toClose := toClose - {r};
      log := log + [Closed(r.number)];
    }

    /** StartScript, up to the registration: a running script is left alone. */
    method StartScript(id: Id)
      requires Valid() && Enabled(View(), Start(id))
      modifies `made, `scripts, `holder
      ensures Valid() && fresh(Made() - old(Made())) && View() == Step(old(View()), Start(id))
    {
      if id in scripts {
        return;
      }
      AddHandle(id);
    }

    method NewRunner(id: Id) returns (r: Runner)
      requires NumberedBy(made, NumberOf)
      modifies `made
      ensures fresh(r) && r.number == old(|made|) && r.id == id && !r.closed && |made| == old(|made|) + 1
      ensures NumberedBy(made, NumberOf) && Made() == old(Made()) + {r} && Owners(made) == old(Owners(made)) + [id]
    {
      r := new Runner(|made|, id);
      OwnersSnoc(made, r);
      made := made + [r];
    }

    method AddHandle(id: Id)
      requires Valid() && Enabled(View(), Start(id)) && id !in scripts
      modifies `made, `scripts, `holder
      ensures Valid() && fresh(Made() - old(Made())) && View() == Step(old(View()), Start(id))
    {
      var r := NewRunner(id);
      assert Valid() && View() == old(View()).(owner := old(View()).owner + [id]);
      Install(r);
    }

    method Install(r: Runner)
      requires Valid() && r in Made()
      modifies `scripts, `holder
      ensures Valid()
      ensures View() == old(View()).(scripts := old(View()).scripts[r.id := r.number], lock := Adding(r.id, r.number))
    {
      MapValuesUpdate(scripts, NumberOf, r.id, r);
      scripts := scripts[r.id := r];
      holder := Adder(r);
    }

    method Add()
      requires Valid() && Enabled(View(), AddRunner)
      modifies this
      ensures Valid() && made == old(made) && View() == Step(old(View()), AddRunner)
    {
      MapValuesUpdate(registry, NumberOf, holder.runner.id, holder.runner);
      ImagePlus(loading, holder.runner);
      registry := registry[holder.runner.id := holder.runner];
      loading := loading + {holder.runner};
      holder := Nobody;
    }

    /** afterLoad, up to the comparison of the handle. */
    method CheckHandle(r: Runner)
      requires Valid() && holder.Nobody? && r in loading
      modifies this
      ensures Valid() && made == old(made) && View() == Step(old(View()), AfterLoad(r.number))
    {
      assert r.number in NumbersOf(loading);
      SameNumber(made, r, r);
      assert Enabled(View(), AfterLoad(r.number)) && View().owner[r.number] == r.id;
      ImageMinus(made, loading, NumberOf, r);
      if r.id in scripts { SameNumber(made, scripts[r.id], r); }
      loading := loading - {r};
      if r.id in scripts && scripts[r.id] == r {
        holder := Registrar(r);
      }
    }

    method RegisterLoaded(empty: bool)
      requires Valid() && Enabled(View(), RegisterRoutes(empty))
      modifies this
      ensures Valid() && made == old(made) && View() == Step(old(View()), RegisterRoutes(empty))
    {
      var r := holder.runner;
      SameNumber(made, r, r);
      if empty {
        MapValuesRemove(routes, NumberOf, r.id);
        routes := routes - {r.id};
      } else {
        MapValuesUpdate(routes, NumberOf, r.id, r);
        routes := routes[r.id := r];
      }
      holder := Nobody;
    }

    method Abandon(r: Runner)
      requires Valid() && r in loading
      modifies this
      ensures Valid() && made == old(made) && View() == Step(old(View()), AbandonLoad(r.number))
    {
      assert r.number in NumbersOf(loading);
      ImageMinus(made, loading, NumberOf, r);
      loading := loading - {r};
    }

    method StopScript(id: Id)
      requires Valid() && Enabled(View(), Stop(id))
      modifies this
      ensures Valid() && made == old(made) && View() == Step(old(View()), Stop(id))
    {
      if id in scripts {
        SameNumber(made, scripts[id], scripts[id]);
        MapValuesRemove(scripts, NumberOf, id);
        holder := Stopper(scripts[id], AtRouter);
        scripts := scripts - {id};
      }
    }

    method Unregister()
      requires Valid() && Enabled(View(), UnregisterRoutes)
      modifies this
      ensures Valid() && made == old(made) && View() == Step(old(View()), UnregisterRoutes)
    {
      MapValuesRemove(routes, NumberOf, holder.runner.id);
      routes := routes - {holder.runner.id};
      holder := Stopper(holder.runner, AtRegistry);
    }

    method Remove()
      requires Valid() && Enabled(View(), RemoveRunner)
      modifies this
      ensures Valid() && made == old(made) && View() == Step(old(View()), RemoveRunner)
    {
      MapValuesRemove(registry, NumberOf, holder.runner.id);
      registry := registry - {holder.runner.id};
      holder := Stopper(holder.runner, AtScheduler);
    }

    method FinishStop()
      requires Valid() && Enabled(View(), RemoveTimers)
      modifies this
      ensures Valid() && made == old(made) && View() == Step(old(View()), RemoveTimers)
    {
      ImagePlus(toClose, holder.runner);
      toClose := toClose + {holder.runner};
      holder := Nobody;
    }

    method StartDispatch(d: nat)
      requires Valid() && d !in dispatches
      modifies `dispatches
      ensures Valid() && View() == Step(old(View()), BeginDispatch(d))
      ensures dispatches == old(dispatches)[d := registry.Values]
    {
      ImageOfValues(registry, NumberOf);
      MapValuesUpdate(dispatches, NumbersOf, d, registry.Values);
      dispatches := dispatches[d := registry.Values];
    }

    method FinishDispatch(d: nat)
      requires Valid() && d in dispatches
      modifies `dispatches
      ensures Valid() && View() == Step(old(View()), EndDispatch(d))
      ensures dispatches == old(dispatches) - {d}
    {
      MapValuesRemove(dispatches, NumbersOf, d);
      dispatches := dispatches - {d};
    }

    /** Dispatch takes the read lock: every runner it will send to is open, and stays so while it is held. */
    method Read(d: nat)
      requires Valid() && Inv(View()) && d !in dispatches
      modifies `dispatches
      ensures Valid() && dispatches == old(dispatches)[d := registry.Values]
      ensures forall r | r in registry.Values :: !r.closed
    {
      StepKeepsInv(View(), BeginDispatch(d));
      StartDispatch(d);
      forall r | r in registry.Values ensures !r.closed { ReadRunnerIsOpen(d, r); }
    }

    method Reach(d: nat, r: Runner, ghost others: map<nat, set<Runner>>)
      requires Valid() && d in dispatches && r in dispatches[d] && !r.closed
      requires dispatches == others[d := dispatches[d]]
      modifies `dispatches, `log, r`sent
      ensures Valid() && log == old(log) + [Sent(r.number)]
      ensures dispatches == others[d := old(dispatches[d]) - {r}]
    {
      assert r.number in NumbersOf(dispatches[d]);
      Overwrite(others, d, dispatches[d], dispatches[d] - {r});
      SendTo(d, r);
    }

    /** The loop of a dispatch over the runners it read. */
    method SendToAll(d: nat, wanted: set<Id>) returns (reached: seq<Runner>)
      requires Valid() && d in dispatches && forall r | r in dispatches[d] :: !r.closed
      modifies `dispatches, `log, dispatches[d]`sent
      ensures Valid() && NoDup(reached)
      ensures forall r :: r in reached <==> r in old(dispatches[d]) && r.id in wanted
      ensures d in dispatches && dispatches == old(dispatches)[d := dispatches[d]]
      ensures log == old(log) + SentTo(reached)
    {
      var left := dispatches[d];
      reached := [];
      while left != {}
        invariant Valid() && d in dispatches && left <= dispatches[d]
        invariant NoDup(reached) && left <= old(dispatches[d])
        invariant forall r :: r in reached <==> r in old(dispatches[d]) && r !in left && r.id in wanted
        invariant dispatches == old(dispatches)[d := dispatches[d]] && log == old(log) + SentTo(reached)
        decreases |left|
      {
        var r :| r in left;
        left := left - {r};
        if r.id in wanted {
          Reach(d, r, old(dispatches));
          reached := reached + [r];
        }
      }
    }

    /** One dispatch, undisturbed: each registered runner that wants the event is sent it once, in some order. */
    method Dispatch(d: nat, wanted: set<Id>) returns (reached: seq<Runner>)
      requires Valid() && Inv(View()) && d !in dispatches
      modifies `dispatches, `log, registry.Values
      ensures Valid() && NoDup(reached)
      ensures forall r :: r in reached <==> r in registry.Values && r.id in wanted
      ensures dispatches == old(dispatches) && log == old(log) + SentTo(reached)
    {
      Read(d);
      reached := SendToAll(d, wanted);
      Overwrite(old(dispatches), d, registry.Values, dispatches[d]);
      FinishDispatch(d);
    }

    /** Any interleaving of the steps, each taken by its method when it is enabled. */
    method Interleave(actions: seq<Action>)
      requires Valid() && Inv(View())
      modifies this, Made()
      ensures Valid() && Inv(View()) && View() == Run(old(View()), actions)
    {
      ghost var start := View();
      assert actions[..0] == [];
      for i := 0 to |actions|
        invariant Valid() && Inv(View()) && fresh(Made() - old(Made())) && View() == Run(start, actions[..i])
      {
        assert actions[..i + 1] == actions[..i] + [actions[i]];
        Attempt(actions[i], start, actions[..i]);
      }
      assert actions[..|actions|] == actions;
    }

    method Attempt(a: Action, ghost start: State, ghost before: seq<Action>)
      requires Valid() && Inv(View()) && View() == Run(start, before)
      modifies this, Made()
      ensures Valid() && Inv(View()) && fresh(Made() - old(Made())) && View() == Run(start, before + [a])
    {
      RunSnoc(start, before, a);
      if Enabled(View(), a) {
        StepKeepsInv(View(), a);
        Perform(a);
      }
    }

    method Perform(a: Action)
      requires Valid() && Inv(View()) && Enabled(View(), a)
      modifies this, Made()
      ensures Valid() && fresh(Made() - old(Made())) && View() == Step(old(View()), a)
    {
      match a {
        case Start(id) => StartScript(id);
        case AddRunner => Add();
        case AfterLoad(h) => ByNumber(made, loading, NumberOf, h); CheckHandle(made[h]);
        case RegisterRoutes(empty) => RegisterLoaded(empty);
        case AbandonLoad(h) => ByNumber(made, loading, NumberOf, h); Abandon(made[h]);
        case Stop(id) => StopScript(id);
        case UnregisterRoutes => Unregister();
        case RemoveRunner => Remove();
        case RemoveTimers => FinishStop();
        case Close(h) => ByNumber(made, toClose, NumberOf, h); StoppedRunnerIsOpen(made[h]); CloseChannel(made[h]);
        case BeginDispatch(d) => StartDispatch(d);
        case Send(d, h) => ByNumber(made, dispatches[d], NumberOf, h); ReadRunnerIsOpen(d, made[h]); SendTo(d, made[h]);
        case EndDispatch(d) => FinishDispatch(d);
      }
    }
  }
}
