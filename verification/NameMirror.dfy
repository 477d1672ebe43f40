// The registry name mirror: stale flags, a one-slot signal and a debounced
// refetch, none of which may lose a change.
module NameMirror {

  const SOURCES: nat := 3

  /** Run's goroutine: in its select, or inside a pass over the registries. */
  datatype Runner =
    | Selecting
    | AtSource(next: nat)                        // about to swap the stale flag of next
    | Fetching(source: nat)                      // flag taken, query not answered yet
    | Answered(source: nat, snapshot: nat)       // the registry as it was when HA answered

  /**
   * version counts HA's own changes of each registry; notified is the newest version a call of
   * Changed has announced; mirror is the version last applied. failed marks a registry whose last
   * refetch failed with no change announced since. notifying counts callers of Changed between
   * their store and their signal.
   */
  datatype State = State(
    version: seq<nat>, notified: seq<nat>, mirror: seq<nat>,
    stale: seq<bool>, failed: seq<bool>,
    notifying: nat, signal: bool, armed: bool, runner: Runner)

  const FRESH := State([0, 0, 0], [0, 0, 0], [0, 0, 0], [false, false, false], [false, false, false], 0, false,
      false, Selecting)

  datatype Action =
    | Change(i: nat)               // HA changes a registry
    | Store(i: nat, seen: nat)     // Changed sets the flag for a change up to version seen
    | Signal                       // and then signals, without blocking
    | Wake                         // Run receives the signal and restarts the settle timer
    | Settled                      // the settle timer fires
    | Swap                         // the pass reads and clears a flag
    | Query                        // HA answers the fetch
    | QueryFails
    | Apply

  ghost predicate Shaped(s: State) {
    |s.version| == |s.notified| == |s.mirror| == |s.stale| == |s.failed| == SOURCES
  }

  predicate Enabled(s: State, a: Action)
    requires Shaped(s)
  {
    match a
    case Change(i) => i < SOURCES
    case Store(i, seen) => i < SOURCES && seen <= s.version[i]
    case Signal => s.notifying > 0
    case Wake => s.runner.Selecting? && s.signal
    case Settled => s.runner.Selecting? && s.armed
    case Swap => s.runner.AtSource?
    case Query => s.runner.Fetching? && s.runner.source < SOURCES
    case QueryFails => s.runner.Fetching? && s.runner.source < SOURCES
    case Apply => s.runner.Answered? && s.runner.source < SOURCES
  }

  function Step(s: State, a: Action): (t: State)
    requires Shaped(s) && Enabled(s, a)
    ensures Shaped(t)
  {
    match a
    case Change(i) => s.(version := s.version[i := s.version[i] + 1])
    case Store(i, seen) =>
      s.(stale := s.stale[i := true], failed := s.failed[i := false], notifying := s.notifying + 1,
         notified := s.notified[i := if seen > s.notified[i] then seen else s.notified[i]])
    case Signal => s.(notifying := s.notifying - 1, signal := true)
    case Wake => s.(signal := false, armed := true)
    case Settled => s.(armed := false, runner := AtSource(0))
    case Swap =>
      var i := s.runner.next;
      if i >= SOURCES then s.(runner := Selecting)
      else if s.stale[i] then s.(stale := s.stale[i := false], runner := Fetching(i))
      else s.(runner := AtSource(i + 1))
    case Query => s.(runner := Answered(s.runner.source, s.version[s.runner.source]))
    case QueryFails =>
      s.(failed := s.failed[s.runner.source := !s.stale[s.runner.source]], runner := AtSource(s.runner.source + 1))
    case Apply =>
      s.(mirror := s.mirror[s.runner.source := s.runner.snapshot], runner := AtSource(s.runner.source + 1))
  }

  function Run(s: State, actions: seq<Action>): (t: State)
    requires Shaped(s)
    ensures Shaped(t)
  {
    if actions == [] then s
    else
      var before, a := Run(s, actions[..|actions| - 1]), actions[|actions| - 1];
      if Enabled(before, a) then Step(before, a) else before
  }

  // ---------- No change is lost ----------

  /** The current pass has yet to read registry i's flag. */
  predicate PassAhead(r: Runner, i: nat) {
    match r
    case Selecting => false
    case AtSource(next) => next <= i
    case Fetching(source) => source < i
    case Answered(source, _) => source < i
  }

  /** A stale flag always has somebody on the way to it. */
  predicate WillBeRead(s: State, i: nat) {
    s.signal || s.armed || s.notifying > 0 || PassAhead(s.runner, i)
  }

  /** Registry i is about to be read again, is being read, or was read late enough and is about to be stored. */
  predicate RefetchDue(s: State, i: nat)
    requires Shaped(s) && i < SOURCES
  {
    || s.stale[i]
    || s.runner == Fetching(i)
    || (s.runner.Answered? && s.runner.source == i && s.runner.snapshot >= s.notified[i])
  }

  /** The mirror has caught up with the announced changes, or a refetch is due, or the last one failed. */
  predicate CaughtUpOrDue(s: State, i: nat)
    requires Shaped(s) && i < SOURCES
  {
    s.mirror[i] >= s.notified[i] || RefetchDue(s, i) || s.failed[i]
  }

  predicate RegistrySound(s: State, i: nat)
    requires Shaped(s) && i < SOURCES
  {
    && s.mirror[i] <= s.version[i]
    && s.notified[i] <= s.version[i]
    && (s.stale[i] ==> WillBeRead(s, i) && !s.failed[i])
    && CaughtUpOrDue(s, i)
  }

  predicate RunnerSound(s: State)
    requires Shaped(s)
  {
    match s.runner
    case Selecting => true
    case AtSource(next) => next <= SOURCES
    case Fetching(i) => i < SOURCES && !s.failed[i]
    case Answered(i, snapshot) => i < SOURCES && !s.failed[i] && s.mirror[i] <= snapshot <= s.version[i]
  }

  ghost predicate Inv(s: State) {
    Shaped(s) && RunnerSound(s) && forall i: nat | i < SOURCES :: RegistrySound(s, i)
  }

  lemma StepKeepsRegistry(s: State, a: Action, i: nat)
    requires Inv(s) && Enabled(s, a) && i < SOURCES
    ensures RegistrySound(Step(s, a), i)
  {
    assert RegistrySound(s, i);
  }

  lemma StepKeepsRunner(s: State, a: Action)
    requires Inv(s) && Enabled(s, a)
    ensures RunnerSound(Step(s, a))
  {
    if a.Swap? && s.runner.next < SOURCES { assert RegistrySound(s, s.runner.next); }
    if a.Query? { assert RegistrySound(s, s.runner.source); }
  }

  lemma StepKeepsInv(s: State, a: Action)
    requires Inv(s) && Enabled(s, a)
    ensures Inv(Step(s, a))
  {
    StepKeepsRunner(s, a);
    forall i: nat | i < SOURCES ensures RegistrySound(Step(s, a), i) {
      StepKeepsRegistry(s, a, i);
    }
  }

  /**
   * In every reachable interleaving a stale flag has somebody on the way to it, and every mirror is caught up, due
   * or failed.
   */
  lemma {:induction false} RunKeepsInv(actions: seq<Action>)
    ensures Inv(Run(FRESH, actions))
  {
    if actions != [] {
      var before, a := Run(FRESH, actions[..|actions| - 1]), actions[|actions| - 1];
      RunKeepsInv(actions[..|actions| - 1]);
      if Enabled(before, a) { StepKeepsInv(before, a); }
    }
  }

  /** With no failed fetch, each mirror is at least as new as every announced change or a refetch is still due. */
  lemma {:induction false} NoChangeIsLost(actions: seq<Action>, i: nat)
    requires QueryFails !in actions && i < SOURCES
    ensures var t := Run(FRESH, actions);
            && !t.failed[i]
            && (t.mirror[i] >= t.notified[i] || RefetchDue(t, i))
    ensures var t := Run(FRESH, actions); t.stale[i] ==> WillBeRead(t, i)
  {
    RunKeepsInv(actions);
    assert RegistrySound(Run(FRESH, actions), i);
    NoneFailed(actions, i);
  }

  lemma {:induction false} NoneFailed(actions: seq<Action>, i: nat)
    requires QueryFails !in actions && i < SOURCES
    ensures !Run(FRESH, actions).failed[i]
  {
    if actions != [] {
      assert actions[|actions| - 1] in actions;
      assert forall a | a in actions[..|actions| - 1] :: a in actions;
      NoneFailed(actions[..|actions| - 1], i);
    }
  }

  /** A mirror never goes back to an older version of its registry. */
  lemma {:induction false} MirrorNeverRegresses(s: State, actions: seq<Action>, i: nat)
    requires Inv(s) && i < SOURCES
    ensures Inv(Run(s, actions)) && s.mirror[i] <= Run(s, actions).mirror[i]
  {
    if actions != [] {
      var before, a := Run(s, actions[..|actions| - 1]), actions[|actions| - 1];
      MirrorNeverRegresses(s, actions[..|actions| - 1], i);
      if Enabled(before, a) { StepKeepsInv(before, a); }
    }
  }

  // ---------- And every change arrives ----------

  /** Steps the daemon takes by itself, with HA answering its fetches. */
  predicate Own(a: Action) {
    a.Signal? || a.Wake? || a.Settled? || a.Swap? || a.Query? || a.Apply?
  }

  function RunnerSteps(r: Runner): nat {
    match r
    case Selecting => 0
    case AtSource(next) => if next >= SOURCES then 1 else 3 * (SOURCES - next) + 1
    case Fetching(source) => if source >= SOURCES then 0 else 3 * (SOURCES - source)
    case Answered(source, _) => if source >= SOURCES then 0 else 3 * (SOURCES - source) - 1
  }

  /** An upper bound on the daemon's own steps still to come. */
  function Remaining(s: State): nat {
    13 * s.notifying + (if s.signal then 12 else 0) + (if s.armed then 11 else 0) + RunnerSteps(s.runner)
  }

  lemma OwnStepsEnd(s: State, a: Action)
    requires Inv(s) && Enabled(s, a) && Own(a)
    ensures Remaining(Step(s, a)) < Remaining(s)
  {
  }

  /**
   * When none of its own steps is left to take, every mirror has caught up with everything announced, unless its
   * refetch failed.
   */
  lemma QuietMeansCaughtUp(s: State)
    requires Inv(s) && forall a | Own(a) :: !Enabled(s, a)
    ensures forall i: nat | i < SOURCES :: s.mirror[i] >= s.notified[i] || s.failed[i]
  {
    assert !Enabled(s, Signal) && !Enabled(s, Wake) && !Enabled(s, Settled);
    assert !Enabled(s, Swap) && !Enabled(s, Query) && !Enabled(s, Apply);
    forall i: nat | i < SOURCES ensures s.mirror[i] >= s.notified[i] || s.failed[i] {
      assert RegistrySound(s, i);
    }
  }

  /** Left to itself after any run, the daemon comes to rest in finitely many steps with every mirror caught up. */
  lemma {:induction false} EveryChangeArrives(s: State) returns (more: seq<Action>)
    requires Inv(s)
    ensures forall a | a in more :: Own(a)
    ensures var t := Run(s, more);
            && Inv(t) && t.notified == s.notified
            && forall i: nat | i < SOURCES :: t.mirror[i] >= t.notified[i] || t.failed[i]
    ensures var t := Run(s, more); forall i: nat | i < SOURCES :: t.failed[i] ==> s.failed[i]
    decreases Remaining(s)
  {
    if a :| Own(a) && Enabled(s, a) {
      StepKeepsInv(s, a);
      OwnStepsEnd(s, a);
      var rest := EveryChangeArrives(Step(s, a));
      more := [a] + rest;
      RunCons(s, a, rest);
    } else {
      more := [];
      QuietMeansCaughtUp(s);
    }
  }

  lemma {:induction false} RunCons(s: State, a: Action, rest: seq<Action>)
    requires Shaped(s) && Enabled(s, a)
    ensures Run(s, [a] + rest) == Run(Step(s, a), rest)
  {
    if rest == [] {
      assert [a] + rest == [a] && [a][..0] == [];
    } else {
      assert ([a] + rest)[..|rest|] == [a] + rest[..|rest| - 1];
      RunCons(s, a, rest[..|rest| - 1]);
    }
  }

  lemma {:induction false} RunMore(s: State, first: seq<Action>, more: seq<Action>)
    requires Shaped(s)
    ensures Run(s, first + more) == Run(Run(s, first), more)
  {
    if more == [] {
      assert first + more == first;
    } else {
      var rest := more[..|more| - 1];
      assert (first + more)[..|first + more| - 1] == first + rest;
      RunMore(s, first, rest);
    }
  }

  /** As long as no fetch fails, what was announced stays announced, and nothing is given up. */
  lemma {:induction false} AnnouncedStays(s: State, moves: seq<Action>, i: nat)
    requires Inv(s) && i < SOURCES && !s.failed[i] && QueryFails !in moves
    ensures var t := Run(s, moves); Inv(t) && !t.failed[i] && t.notified[i] >= s.notified[i]
  {
    if moves != [] {
      var rest, a := moves[..|moves| - 1], moves[|moves| - 1];
      assert a in moves;
      AnnouncedStays(s, rest, i);
      if Enabled(Run(s, rest), a) { StepKeepsInv(Run(s, rest), a); }
    }
  }

  lemma RunOne(s: State, a: Action)
    requires Inv(s) && Enabled(s, a)
    ensures Run(s, [a]) == Step(s, a) && Inv(Step(s, a))
  {
    StepKeepsInv(s, a);
    assert [a][..0] == [];
  }

  lemma Announces(s: State, i: nat, seen: nat)
    requires Inv(s) && i < SOURCES && seen <= s.version[i]
    ensures var t := Run(s, [Store(i, seen)]); Inv(t) && t.notified[i] >= seen && !t.failed[i]
  {
    RunOne(s, Store(i, seen));
  }

  /**
   * A registry changes and somebody says so: whatever happens next, short of a failing fetch, the daemon's own steps
   * then bring a mirror at least that new.
   */
  lemma ChangeArrives(s: State, i: nat, moves: seq<Action>) returns (more: seq<Action>)
    requires Inv(s) && i < 3 && QueryFails !in moves
    ensures forall a | a in more :: Own(a)
    ensures Run(s, [Change(i)] + [Store(i, s.version[i] + 1)] + moves + more).mirror[i] > s.version[i]
  {
    var change, store := [Change(i)], [Store(i, s.version[i] + 1)];
    RunOne(s, Change(i));
    var changed := Run(s, change);
    Announces(changed, i, s.version[i] + 1);
    var announced := Run(changed, store);
    AnnouncedStays(announced, moves, i);
    more := EveryChangeArrives(Run(announced, moves));
    RunMore(s, change, store);
    RunMore(s, change + store, moves);
    RunMore(s, change + store + moves, more);
  }

  // ---------- The mirror ----------

  const EVENTS := ["entity_registry_updated", "device_registry_updated", "area_registry_updated"]

  lemma EventsDiffer()
    ensures EVENTS[0] == "entity_registry_updated" && EVENTS[1] == "device_registry_updated"
            && EVENTS[2] == "area_registry_updated"
    ensures forall i, k | 0 <= i < k < SOURCES :: EVENTS[i] != EVENTS[k]
  {
    assert EVENTS[0][0] == 'e' && EVENTS[1][0] == 'd' && EVENTS[2][0] == 'a';
  }

  /** Steps taken one after the other. */
  lemma RunSnoc(s: State, actions: seq<Action>, a: Action)
    requires Shaped(s)
    ensures Run(s, actions + [a]) == if Enabled(Run(s, actions), a) then Step(Run(s, actions), a) else Run(s, actions)
  {
    assert (actions + [a])[..|actions|] == actions;
  }

  /** After the first n registries were announced as they are. */
  function Announced(s: State, n: nat): (t: State)
    requires Shaped(s) && n <= SOURCES
    ensures Shaped(t)
  {
    s.(stale := seq(SOURCES, k requires 0 <= k < SOURCES => k < n || s.stale[k]),
       failed := seq(SOURCES, k requires 0 <= k < SOURCES => k >= n && s.failed[k]),
       notified := seq(SOURCES, k requires 0 <= k < SOURCES => if k < n then s.version[k] else s.notified[k]),
       signal := n > 0 || s.signal)
  }

  lemma AnnouncedOne(s: State, n: nat)
    requires Shaped(s) && n < SOURCES && s.notified[n] <= s.version[n]
    ensures Step(Step(Announced(s, n), Store(n, s.version[n])), Signal) == Announced(s, n + 1)
  {
  }

  lemma AnnouncedEnds(s: State)
    requires Shaped(s)
    ensures Announced(s, 0) == s
    ensures Announced(s, SOURCES)
            == s.(stale := [true, true, true], failed := [false, false, false], notified := s.version, signal := true)
  {
    assert Announced(s, 0).stale == s.stale && Announced(s, 0).failed == s.failed
        && Announced(s, 0).notified == s.notified;
  }

  /** What one turn of an undisturbed pass makes of registry i. */
  function Refreshed(s: State, i: nat, fails: bool): (t: State)
    requires Shaped(s) && i < SOURCES
    ensures Shaped(t)
  {
    if !s.stale[i] then s.(runner := AtSource(i + 1))
    else if fails then s.(stale := s.stale[i := false], failed := s.failed[i := true], runner := AtSource(i + 1))
    else s.(stale := s.stale[i := false], mirror := s.mirror[i := s.version[i]], runner := AtSource(i + 1))
  }

  /** version, notified, failed and notifying only record what HA, its callers and its fetches have done. */
  class Names {
    const stale: array<bool>
    const mirror: array<nat>
    var signal: bool
    var armed: bool
    var runner: Runner
    var version: seq<nat>
    var notified: seq<nat>
    var failed: seq<bool>
    var notifying: nat

    function View(): State
      reads this, stale, mirror
    {
      State(version, notified, mirror[..], stale[..], failed, notifying, signal, armed, runner)
    }

    constructor ()
      ensures View() == FRESH && fresh(stale) && fresh(mirror)
    {
      stale := new bool[SOURCES](_ => false);
      mirror := new nat[SOURCES](_ => 0);
      signal, armed, runner := false, false, Selecting;
      version, notified, failed, notifying := [0, 0, 0], [0, 0, 0], [false, false, false], 0;
      new;
      assert stale[..] == [false, false, false] && mirror[..] == [0, 0, 0];
    }

    method MarkStale(i: nat, seen: nat)
      requires Shaped(View()) && Enabled(View(), Store(i, seen))
      modifies this, stale
      ensures View() == Step(old(View()), Store(i, seen))
    {
      stale[i] := true;
      failed, notifying := failed[i := false], notifying + 1;
      notified := notified[i := if seen > notified[i] then seen else notified[i]];
    }

    /** A send on a channel of one slot that never blocks. */
    method RaiseSignal()
      requires Shaped(View()) && Enabled(View(), Signal)
      modifies this
      ensures View() == Step(old(View()), Signal)
    {
      if !signal {
        signal := true;
      }
      notifying := notifying - 1;
    }

    /** Event types of no registry are ignored; the source announces the registry as it is now. */
    method Changed(eventType: string)
      requires Shaped(View())
      modifies this, stale
      ensures Shaped(View())
      ensures eventType !in EVENTS ==> View() == old(View())
      ensures forall i: nat | i < SOURCES && EVENTS[i] == eventType ::
                && Enabled(old(View()), Store(i, old(version[i])))
                && View() == Step(Step(old(View()), Store(i, old(version[i]))), Signal)
      ensures stale[0] == (old(stale[0]) || eventType == "entity_registry_updated")
      ensures stale[1] == (old(stale[1]) || eventType == "device_registry_updated")
      ensures stale[2] == (old(stale[2]) || eventType == "area_registry_updated")
    {
      for i := 0 to SOURCES
        invariant View() == old(View()) && stale[..] == old(stale[..])
        invariant forall k | 0 <= k < i :: EVENTS[k] != eventType
      {
        if EVENTS[i] == eventType {
          MarkStale(i, version[i]);
          RaiseSignal();
          EventsDiffer();
          assert forall k | 0 <= k < SOURCES :: stale[k] == View().stale[k];
          return;
        }
      }
      EventsDiffer();
      assert forall k | 0 <= k < SOURCES :: stale[k] == old(stale[..])[k];
    }

    /** Across a reconnect any registry may have changed: all are announced. */
    method ChangedAll()
      requires Shaped(View()) && forall i: nat | i < SOURCES :: notified[i] <= version[i]
      modifies this, stale
      ensures View() == old(View()).(stale := [true, true, true], failed := [false, false, false],
              notified := old(version), signal := true)
    {
      ghost var was := View();
      AnnouncedEnds(was);
      for i := 0 to SOURCES
        invariant Shaped(View()) && View() == Announced(was, i)
      {
        AnnouncedOne(was, i);
        Changed(EVENTS[i]);
      }
    }

    method ReceiveSignal()
      requires Shaped(View()) && Enabled(View(), Wake)
      modifies this
      ensures View() == Step(old(View()), Wake)
    {
      signal := false;
      armed := true;
    }

    method StartPass()
      requires Shaped(View()) && Enabled(View(), Settled)
      modifies this
      ensures View() == Step(old(View()), Settled)
    {
      armed := false;
      runner := AtSource(0);
    }

    method NextSource()
      requires Shaped(View()) && Enabled(View(), Swap)
      modifies this, stale
      ensures View() == Step(old(View()), Swap)
    {
      var i := runner.next;
      if i >= SOURCES {
        runner := Selecting;
        return;
      }
      var was := stale[i];
      stale[i] := false;
      runner := if was then Fetching(i) else AtSource(i + 1);
    }

    /** HA answers with the registry as it is at that moment. */
    method ReceiveAnswer(current: nat)
      requires Shaped(View()) && Enabled(View(), Query) && current == version[runner.source]
      modifies this
      ensures View() == Step(old(View()), Query)
    {
      runner := Answered(runner.source, current);
    }

    method AbandonFetch()
      requires Shaped(View()) && Enabled(View(), QueryFails)
      modifies this
      ensures View() == Step(old(View()), QueryFails)
    {
      failed := failed[runner.source := !stale[runner.source]];
      runner := AtSource(runner.source + 1);
    }

    method ApplyAnswer()
      requires Shaped(View()) && Enabled(View(), Apply)
      modifies this, mirror
      ensures View() == Step(old(View()), Apply)
    {
      mirror[runner.source] := runner.snapshot;
      runner := AtSource(runner.source + 1);
    }

    /** One turn of the pass that nothing interferes with. */
    method Refresh(fails: bool, ghost start: State, ghost before: seq<Action>) returns (ghost steps: seq<Action>)
      requires Shaped(start) && Shaped(View()) && View() == Run(start, before) && runner.AtSource?
              && runner.next < SOURCES
      modifies this, stale, mirror
      ensures Shaped(View()) && View() == Run(start, steps)
      ensures View() == Refreshed(old(View()), old(runner.next), fails)
    {
      RunSnoc(start, before, Swap);
      steps := before + [Swap];
      NextSource();
      if runner.Fetching? {
        steps := Fetch(fails, start, steps);
      }
    }

    method Fetch(fails: bool, ghost start: State, ghost before: seq<Action>) returns (ghost steps: seq<Action>)
      requires Shaped(start) && Shaped(View()) && View() == Run(start, before)
      requires runner.Fetching? && runner.source < SOURCES && !stale[runner.source]
      modifies this, mirror
      ensures Shaped(View()) && View() == Run(start, steps)
      ensures var i, was := old(runner.source), old(View());
              View() == if fails then was.(failed := was.failed[i := true], runner := AtSource(i + 1))
                        else was.(mirror := was.mirror[i := was.version[i]], runner := AtSource(i + 1))
    {
      if fails {
        RunSnoc(start, before, QueryFails);
        steps := before + [QueryFails];
        AbandonFetch();
      } else {
        RunSnoc(start, before, Query);
        RunSnoc(start, before + [Query], Apply);
        steps := before + [Query] + [Apply];
        ReceiveAnswer(version[runner.source]);
        ApplyAnswer();
      }
    }

    /**
     * The pass over the registries: each stale one is refetched once, and keeps its old value only if its fetch
     * fails.
     */
    method Pass(fails: seq<bool>) returns (ghost steps: seq<Action>)
      requires Shaped(View()) && runner == AtSource(0) && |fails| == SOURCES
      modifies this, stale, mirror
      ensures View() == Run(old(View()), steps) && runner.Selecting?
      ensures forall i | 0 <= i < SOURCES ::
                && !stale[i]
                && mirror[i] == (if old(stale[i]) && !fails[i] then version[i] else old(mirror[i]))
                && failed[i] == (old(failed[i]) || (old(stale[i]) && fails[i]))
      ensures version == old(version) && notified == old(notified) && signal == old(signal) && armed == old(armed)
    {
      ghost var start := View();
      steps := [];
      for i := 0 to SOURCES
        invariant Shaped(View()) && View() == Run(start, steps) && runner == AtSource(i)
        invariant version == old(version) && notified == old(notified) && signal == old(signal) && armed == old(armed)
        invariant forall k | 0 <= k < SOURCES ::
                    if k >= i then stale[k] == old(stale[k]) && mirror[k] == old(mirror[k])
                        && failed[k] == old(failed[k])
                    else && !stale[k]
                         && mirror[k] == (if old(stale[k]) && !fails[k] then version[k] else old(mirror[k]))
                         && failed[k] == (old(failed[k]) || (old(stale[k]) && fails[k]))
      {
        ghost var was := View();
        steps := Refresh(fails[i], start, steps);
        RefreshedOnly(was, i, fails[i]);
        assert forall k | 0 <= k < SOURCES :: stale[k] == View().stale[k] && mirror[k] == View().mirror[k];
      }
      RunSnoc(start, steps, Swap);
      steps := steps + [Swap];
      NextSource();
    }

    /** Any interleaving of the steps, each taken by its method when it is enabled. */
    method Interleave(actions: seq<Action>)
      requires Shaped(View())
      modifies this, stale, mirror
      ensures Shaped(View()) && View() == Run(old(View()), actions)
    {
      ghost var start := View();
      for i := 0 to |actions|
        invariant Shaped(View()) && View() == Run(start, actions[..i])
      {
        RunSnoc(start, actions[..i], actions[i]);
        assert actions[..i + 1] == actions[..i] + [actions[i]];
        if Enabled(View(), actions[i]) {
          Perform(actions[i]);
        }
      }
      assert actions[..|actions|] == actions;
    }

    method Perform(a: Action)
      requires Shaped(View()) && Enabled(View(), a)
      modifies this, stale, mirror
      ensures Shaped(View()) && View() == Step(old(View()), a)
    {
      match a {
        case Change(i) => version := version[i := version[i] + 1];
        case Store(i, seen) => MarkStale(i, seen);
        case Signal => RaiseSignal();
        case Wake => ReceiveSignal();
        case Settled => StartPass();
        case Swap => NextSource();
        case Query => ReceiveAnswer(version[runner.source]);
        case QueryFails => AbandonFetch();
        case Apply => ApplyAnswer();
      }
    }
  }

  lemma RefreshedOnly(s: State, i: nat, fails: bool)
    requires Shaped(s) && i < SOURCES
    ensures var t := Refreshed(s, i, fails);
            && (forall k | 0 <= k < SOURCES && k != i ::
                  t.stale[k] == s.stale[k] && t.mirror[k] == s.mirror[k] && t.failed[k] == s.failed[k])
            && !t.stale[i] && t.mirror[i] == (if s.stale[i] && !fails then s.version[i] else s.mirror[i])
            && t.failed[i] == (s.failed[i] || (s.stale[i] && fails))
            && t.version == s.version && t.notified == s.notified && t.signal == s.signal && t.armed == s.armed
            && t.runner == AtSource(i + 1)
  {
  }
}
