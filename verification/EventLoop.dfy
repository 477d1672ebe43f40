// The per-script event loop: a bounded lossy channel feeding a batching loop
// that coalesces state_changed events per entity.
module EventLoop {

  const QUEUE_CAP: nat := 256

  /** One delivered event. entityId is the decoded entity_id, "" when the payload has none. */
  datatype Event =
    | HAEvent(eventType: string, entityId: string, data: string)
    | TimerFired(timerId: string)
    | MqttMessage(topic: string, payload: string)
    | SyslogMessage(text: string)

  predicate Coalesces(ev: Event) {
    ev.HAEvent? && ev.eventType == "state_changed" && ev.entityId != ""
  }

  predicate Bypasses(ev: Event, immediate: bool) {
    immediate || !ev.HAEvent?
  }

  predicate SameEntity(a: Event, b: Event) {
    Coalesces(a) && Coalesces(b) && a.entityId == b.entityId
  }

  // ---------- What a window means ----------

  type Window = seq<Event>

  /** The arrival at i is the first of its entity in the window (or does not coalesce at all). */
  predicate Opens(w: Window, i: nat)
    requires i < |w|
  {
    forall j | 0 <= j < i :: !SameEntity(w[j], w[i])
  }

  /** The arrivals that open a slot, in arrival order. */
  function Slots(w: Window): (s: seq<nat>)
    ensures forall k | 0 <= k < |s| :: s[k] < |w| && Opens(w, s[k])
    ensures forall k, m | 0 <= k < m < |s| :: s[k] < s[m]
  {
    if w == [] then []
    else
      var n := |w| - 1;
      assert forall i: nat | i < n :: Opens(w, i) == Opens(w[..n], i);
      Slots(w[..n]) + if Opens(w, n) then [n] else []
  }

  /** The newest arrival among w[..n] that stands for arrival i. */
  function NewestBefore(w: Window, i: nat, n: nat): (j: nat)
    requires i < n <= |w|
    ensures i <= j < n
    ensures j == i || SameEntity(w[i], w[j])
    ensures forall m | j < m < n :: !SameEntity(w[i], w[m])
  {
    if n - 1 == i || SameEntity(w[i], w[n - 1]) then n - 1 else NewestBefore(w, i, n - 1)
  }

  function Newest(w: Window, i: nat): nat
    requires i < |w|
  {
    NewestBefore(w, i, |w|)
  }

  /** What a window is handled as: every slot, in slot order, holding its entity's newest event. */
  function Coalesce(w: Window): seq<Event> {
    var slots := Slots(w);
    seq(|slots|, k requires 0 <= k < |slots| => w[Newest(w, slots[k])])
  }

  /** Each arrival is represented by the slot its entity opened. */
  lemma {:induction false} SlotOf(w: Window, i: nat) returns (k: nat)
    requires i < |w|
    ensures k < |Slots(w)| && Slots(w)[k] <= i
    ensures Slots(w)[k] == i || SameEntity(w[Slots(w)[k]], w[i])
  {
    var n := |w| - 1;
    assert w == w[..n] + [w[n]];
    if i < n {
      k := SlotOf(w[..n], i);
    } else if Opens(w, n) {
      k := |Slots(w)| - 1;
    } else {
      var j :| 0 <= j < n && SameEntity(w[j], w[n]);
      k := SlotOf(w[..n], j);
    }
  }

  lemma {:induction false} SamePrefix(w: Window, v: Window, i: nat, n: nat)
    requires i < n <= |w| && w <= v
    ensures NewestBefore(v, i, n) == NewestBefore(w, i, n)
  {
    if n - 1 != i { SamePrefix(w, v, i, n - 1); }
  }

  lemma SlotsExtend(w: Window, ev: Event)
    ensures Slots(w + [ev]) == Slots(w) + if Opens(w + [ev], |w|) then [|w|] else []
  {
    var v := w + [ev];
    assert v[..|v| - 1] == w && v != [];
  }

  /** An arrival that opens a slot goes last. */
  lemma OpensExtend(w: Window, ev: Event)
    requires Opens(w + [ev], |w|)
    ensures Coalesce(w + [ev]) == Coalesce(w) + [ev]
  {
    SlotsExtend(w, ev);
    assert |Coalesce(w + [ev])| == |Coalesce(w)| + 1;
    forall k | 0 <= k < |Slots(w)| ensures Coalesce(w + [ev])[k] == Coalesce(w)[k] {
      NewestExtend(w, ev, Slots(w)[k]);
      assert !SameEntity((w + [ev])[Slots(w)[k]], (w + [ev])[|w|]);
    }
  }

  /** Any other arrival takes over the slot its entity already holds. */
  lemma TakeOverExtend(w: Window, ev: Event, s: nat)
    requires !Opens(w + [ev], |w|) && s < |Slots(w)| && SameEntity(w[Slots(w)[s]], ev)
    ensures Coalesce(w + [ev]) == Coalesce(w)[s := ev]
  {
    var v := w + [ev];
    SlotsExtend(w, ev);
    forall k | 0 <= k < |Slots(w)| ensures Coalesce(v)[k] == Coalesce(w)[s := ev][k] {
      NewestExtend(w, ev, Slots(w)[k]);
      if k < s {
        assert !SameEntity(w[Slots(w)[k]], w[Slots(w)[s]]);
      } else if s < k {
        assert !SameEntity(w[Slots(w)[s]], w[Slots(w)[k]]);
      }
    }
  }

  lemma NewestExtend(w: Window, ev: Event, i: nat)
    requires i < |w|
    ensures Newest(w + [ev], i) == if SameEntity(w[i], ev) then |w| else Newest(w, i)
  {
    SamePrefix(w, w + [ev], i, |w|);
  }

  /** Where each entity's slot is. */
  function SlotTable(w: Window): map<string, nat> {
    if w == [] then map[]
    else
      var n := |w| - 1;
      var before := SlotTable(w[..n]);
      if Coalesces(w[n]) && Opens(w, n) then before[w[n].entityId := |Slots(w[..n])|] else before
  }

  /** An arrival that names id. */
  predicate Names(ev: Event, id: string) {
    Coalesces(ev) && ev.entityId == id
  }

  /** The table holds exactly the entities seen in the window, */
  lemma {:induction false} SlotTableHas(w: Window, id: string)
    ensures id in SlotTable(w) <==> exists i | 0 <= i < |w| :: Names(w[i], id)
  {
    if w != [] {
      var n := |w| - 1;
      SlotTableHas(w[..n], id);
      assert forall i | 0 <= i < n :: w[..n][i] == w[i];
      if i :| 0 <= i < n && Names(w[i], id) { assert Names(w[..n][i], id); }
      if !Opens(w, n) {
        var j :| 0 <= j < n && SameEntity(w[j], w[n]);
        assert Names(w[n], id) ==> Names(w[..n][j], id);
      }
    }
  }

  /** each at the slot it opened. */
  lemma {:induction false} SlotTableIs(w: Window, id: string)
    requires id in SlotTable(w)
    ensures var k := SlotTable(w)[id]; k < |Slots(w)| && Names(w[Slots(w)[k]], id)
  {
    var n := |w| - 1;
    if !(Names(w[n], id) && Opens(w, n)) {
      SlotTableIs(w[..n], id);
      assert w[..n][Slots(w[..n])[SlotTable(w[..n])[id]]] == w[Slots(w)[SlotTable(w)[id]]];
    }
  }

  /** How one more arrival changes the pending slice and the slot table. */
  lemma TableExtend(w: Window, ev: Event)
    ensures Coalesce(w + [ev]) != []
    ensures Coalesces(ev) && ev.entityId in SlotTable(w) ==>
              && SlotTable(w)[ev.entityId] < |Coalesce(w)|
              && Coalesce(w + [ev]) == Coalesce(w)[SlotTable(w)[ev.entityId] := ev]
              && SlotTable(w + [ev]) == SlotTable(w)
    ensures !(Coalesces(ev) && ev.entityId in SlotTable(w)) ==>
              && Coalesce(w + [ev]) == Coalesce(w) + [ev]
              && SlotTable(w + [ev]) == if Coalesces(ev) then SlotTable(w)[ev.entityId := |Coalesce(w)|]
                  else SlotTable(w)
  {
    var v := w + [ev];
    assert v[..|w|] == w;
    if Coalesces(ev) {
      SlotTableHas(w, ev.entityId);
      if ev.entityId in SlotTable(w) { SlotTableIs(w, ev.entityId); }
    }
    if Opens(v, |w|) {
      OpensExtend(w, ev);
    } else {
      assert Coalesces(ev);
      TakeOverExtend(w, ev, SlotTable(w)[ev.entityId]);
    }
  }

  lemma SingletonWindow(ev: Event)
    ensures Coalesce([ev]) == [ev]
  {
    OpensExtend([], ev);
    assert [] + [ev] == [ev];
  }

  // ---------- The loop as a machine over raw windows ----------

  /** windows: every closed window of raw arrivals; open: the raw arrivals of the current one. */
  datatype Loop = Loop(queue: seq<Event>, closed: bool, dropped: nat,
                       windows: seq<Window>, open: Window, stopped: bool)

  datatype Action = Send(ev: Event) | Close | Receive | Expire | Cancel

  const IDLE := Loop([], false, 0, [], [], false)

  predicate Enabled(l: Loop, a: Action) {
    match a
    case Send(_) => !l.closed
    case Close => !l.closed
    case Receive => !l.stopped && (l.queue != [] || l.closed)
    case Expire => !l.stopped && l.open != []
    case Cancel => !l.stopped
  }

  function Step(l: Loop, a: Action, immediate: bool): Loop
    requires Enabled(l, a)
  {
    match a
    case Send(ev) =>
      if |l.queue| < QUEUE_CAP then l.(queue := l.queue + [ev]) else l.(dropped := l.dropped + 1)
    case Close => l.(closed := true)
    case Expire => l.(windows := l.windows + [l.open], open := [])
    case Cancel => l.(stopped := true)
    case Receive =>
      if l.queue == [] then l.(windows := l.windows + [l.open], open := [], stopped := true)
      else
        var ev, rest := l.queue[0], l.queue[1..];
        if Bypasses(ev, immediate) then
          l.(queue := rest, windows := l.windows + [l.open, [ev]], open := [])
        else
          l.(queue := rest, open := l.open + [ev])
  }

  function Flatten<T>(parts: seq<seq<T>>): seq<T> {
    if parts == [] then [] else Flatten(parts[..|parts| - 1]) + parts[|parts| - 1]
  }

  function Handled(windows: seq<Window>): seq<Event> {
    if windows == [] then [] else Handled(windows[..|windows| - 1]) + Coalesce(windows[|windows| - 1])
  }

  lemma HandledSnoc(windows: seq<Window>, w: Window)
    ensures Handled(windows + [w]) == Handled(windows) + Coalesce(w)
    ensures Flatten(windows + [w]) == Flatten(windows) + w
  {
    assert (windows + [w])[..|windows|] == windows;
  }

  function Run(l: Loop, actions: seq<Action>, immediate: bool): Loop {
    if actions == [] then l
    else
      var before := Run(l, actions[..|actions| - 1], immediate);
      var a := actions[|actions| - 1];
      if Enabled(before, a) then Step(before, a, immediate) else before
  }

  /** A script's runner. handled is the sequence of events passed to handleEvent. */
  class Runner {
    const immediate: bool
    var queue: seq<Event>
    var closed: bool
    var dropped: nat
    var stopped: bool
    var pending: seq<Event>
    var coalesceIdx: map<string, nat>
    var armed: bool
    var handled: seq<Event>
    ghost var windows: seq<Window>
    ghost var open: Window

    ghost predicate Valid()
      reads this
    {
      && pending == Coalesce(open)
      && coalesceIdx == SlotTable(open)
      && (armed <==> pending != [])
      && (armed <==> open != [])
      && handled == Handled(windows)
    }

    ghost function View(): Loop
      reads this
    {
      Loop(queue, closed, dropped, windows, open, stopped)
    }

    constructor (immediate: bool)
      ensures Valid() && View() == IDLE && this.immediate == immediate
    {
      this.immediate := immediate;
      queue, closed, dropped, stopped := [], false, 0, false;
      pending, coalesceIdx, armed, handled := [], map[], false, [];
      windows, open := [], [];
    }

    /** Never blocks: a full channel drops the event and reports false. */
    method Send(ev: Event) returns (ok: bool)
      requires Valid() && !closed
      modifies this
      ensures Valid() && View() == Step(old(View()), Action.Send(ev), immediate)
      ensures ok <==> |old(queue)| < QUEUE_CAP
      ensures handled == old(handled)
    {
      if |queue| < QUEUE_CAP {
        queue := queue + [ev];
        return true;
      }
      dropped := dropped + 1;
      return false;
    }

    method Close()
      requires Valid() && !closed
      modifies this
      ensures Valid() && View() == Step(old(View()), Action.Close, immediate)
      ensures handled == old(handled)
    {
      closed := true;
    }

    method HandleAll(events: seq<Event>)
      modifies `handled
      ensures handled == old(handled) + events
    {
      for i := 0 to |events|
        invariant handled == old(handled) + events[..i]
      {
        handled := handled + [events[i]];
      }
    }

    method Flush()
      requires Valid()
      modifies `pending, `coalesceIdx, `armed, `handled, `windows, `open
      ensures Valid() && windows == old(windows) + [old(open)] && open == []
      ensures handled == old(handled) + Coalesce(old(open))
    {
      HandleAll(pending);
      HandledSnoc(windows, open);
      pending, coalesceIdx, armed := [], map[], false;
      windows, open := windows + [open], [];
    }

    /** An event that may not wait: the open window is drained ahead of it. */
    method HandleNow(ev: Event)
      requires Valid()
      modifies `pending, `coalesceIdx, `armed, `handled, `windows, `open
      ensures Valid() && windows == old(windows) + [old(open), [ev]] && open == []
      ensures handled == old(handled) + Coalesce(old(open)) + [ev]
    {
      Flush();
      handled := handled + [ev];
      HandledSnoc(windows, [ev]);
      SingletonWindow(ev);
      windows := windows + [[ev]];
    }

    /** An event that waits for its window: it overwrites its entity's slot or takes a new one. */
    method Batch(ev: Event)
      requires Valid()
      modifies `pending, `coalesceIdx, `armed, `open
      ensures Valid() && open == old(open) + [ev]
    {
      TableExtend(open, ev);
      open := open + [ev];
      if Coalesces(ev) {
        if ev.entityId in coalesceIdx {
          pending := pending[coalesceIdx[ev.entityId] := ev];
          return;
        }
        coalesceIdx := coalesceIdx[ev.entityId := |pending|];
      }
      pending := pending + [ev];
      if !armed {
        armed := true;
      }
    }

    /** The receive case of the loop's select. */
    method Receive()
      requires Valid() && Enabled(View(), Action.Receive)
      modifies this
      ensures Valid() && View() == Step(old(View()), Action.Receive, immediate)
    {
      if queue == [] {
        Flush();
        stopped := true;
        return;
      }
      var ev := queue[0];
      queue := queue[1..];
      if Bypasses(ev, immediate) {
        HandleNow(ev);
      } else {
        Batch(ev);
      }
    }

    /** The timer case: the channel is nil, so never ready, unless a window is open. */
    method Expire()
      requires Valid() && armed && !stopped
      modifies this
      ensures Valid() && View() == Step(old(View()), Action.Expire, immediate)
      ensures handled == old(handled) + Coalesce(old(open))
    {
      Flush();
    }

    method Cancel()
      requires Valid() && !stopped
      modifies this
      ensures Valid() && View() == Step(old(View()), Action.Cancel, immediate)
      ensures handled == old(handled)
    {
      stopped := true;
    }

    /** Any interleaving of the loop's own steps with the ones its callers take. */
    method Interleave(actions: seq<Action>)
      requires Valid()
      modifies this
      ensures Valid() && View() == Run(old(View()), actions, immediate)
    {
      for i := 0 to |actions|
        invariant Valid() && View() == Run(old(View()), actions[..i], immediate)
      {
        assert actions[..i + 1][..i] == actions[..i];
        match actions[i] {
          case Send(ev) => if !closed { var _ := Send(ev); }
          case Close => if !closed { Close(); }
          case Receive => if !stopped && (queue != [] || closed) { Receive(); }
          case Expire => if !stopped && armed { Expire(); }
          case Cancel => if !stopped { Cancel(); }
        }
      }
      assert actions[..|actions|] == actions;
    }
  }

  // ---------- What one window guarantees ----------

  /** Arrival indexes behind the events a window is handled as. */
  function Kept(w: Window): (p: seq<nat>)
    ensures |p| == |Coalesce(w)| && forall k | 0 <= k < |p| :: p[k] < |w| && Coalesce(w)[k] == w[p[k]]
  {
    seq(|Slots(w)|, k requires 0 <= k < |Slots(w)| => Newest(w, Slots(w)[k]))
  }

  /** Every arrival is handled through the slot its entity opened, which holds that entity's newest event. */
  lemma WindowKeepsNewest(w: Window, i: nat) returns (k: nat)
    requires i < |w|
    ensures k < |Kept(w)|
    ensures Slots(w)[k] == i || SameEntity(w[Slots(w)[k]], w[i])
    ensures i <= Kept(w)[k]
    ensures Kept(w)[k] == i || SameEntity(w[i], w[Kept(w)[k]])
    ensures forall m | Kept(w)[k] < m < |w| :: !SameEntity(w[i], w[m])
  {
    k := SlotOf(w, i);
  }

  lemma WindowHandlesEachEntityOnce(w: Window, a: nat, b: nat)
    requires a < b < |Coalesce(w)|
    ensures !SameEntity(Coalesce(w)[a], Coalesce(w)[b])
    ensures Kept(w)[a] != Kept(w)[b]
    ensures !Coalesces(Coalesce(w)[a]) && !Coalesces(Coalesce(w)[b]) ==> Kept(w)[a] < Kept(w)[b]
  {
    var sa, sb := Slots(w)[a], Slots(w)[b];
    assert Opens(w, sb) && !SameEntity(w[sa], w[sb]);
  }

  /** Only a state_changed event that names an entity ever gives way to a newer one. */
  lemma OthersKeepTheirSlot(w: Window, i: nat)
    requires i < |w|
    requires w[i].HAEvent? ==> w[i].eventType != "state_changed" || w[i].entityId == ""
    ensures i in Kept(w)
  {
    var k := WindowKeepsNewest(w, i);
  }

  /** And one does, to every newer state_changed event of its entity in the window. */
  lemma OlderChangeIsSuperseded(w: Window, a: nat, b: nat)
    requires a < b < |w| && w[a].HAEvent? && w[b].HAEvent?
    requires w[a].eventType == w[b].eventType == "state_changed" && w[a].entityId == w[b].entityId != ""
    ensures a !in Kept(w)
  {
    forall k | 0 <= k < |Kept(w)| ensures Kept(w)[k] != a {
      assert SameEntity(w[Slots(w)[k]], w[a]) == SameEntity(w[Slots(w)[k]], w[b]);
    }
  }

  /** A state_changed event that names an entity is handled exactly when no newer one of that entity follows it. */
  lemma NewestChangeIsKept(w: Window, i: nat)
    requires i < |w| && w[i].HAEvent? && w[i].eventType == "state_changed" && w[i].entityId != ""
    requires forall j | i < j < |w| ::
      w[j].HAEvent? && w[j].eventType == "state_changed" ==> w[j].entityId != w[i].entityId
    ensures i in Kept(w)
  {
    var k := WindowKeepsNewest(w, i);
  }

  // ---------- What one step guarantees ----------

  /** An event that may not wait is handled at once, after everything that waited. */
  lemma ImmediateIsHandledAtOnce(l: Loop, immediate: bool)
    requires !l.stopped && l.queue != []
    requires immediate || l.queue[0].TimerFired? || l.queue[0].MqttMessage? || l.queue[0].SyslogMessage?
    ensures var m := Step(l, Receive, immediate);
            && Handled(m.windows) == Handled(l.windows) + Coalesce(l.open) + [l.queue[0]]
            && m.open == [] && m.queue == l.queue[1..] && !m.stopped
  {
    var ev := l.queue[0];
    HandledSnoc(l.windows, l.open);
    HandledSnoc(l.windows + [l.open], [ev]);
    SingletonWindow(ev);
    assert l.windows + [l.open, [ev]] == l.windows + [l.open] + [[ev]];
  }

  /** Any other event joins the open window, and nothing is handled yet. */
  lemma BatchedEventWaits(l: Loop)
    requires !l.stopped && l.queue != [] && l.queue[0].HAEvent?
    ensures var m := Step(l, Receive, false);
            && Handled(m.windows) == Handled(l.windows)
            && m.open == l.open + [l.queue[0]] && m.queue == l.queue[1..] && !m.stopped
  {
  }

  /** The window's end handles what waited, and so does the end of a closed channel. */
  lemma WindowEndHandlesOpen(l: Loop, a: Action, immediate: bool)
    requires Enabled(l, a) && (a.Expire? || (a.Receive? && l.queue == []))
    ensures var m := Step(l, a, immediate);
            && Handled(m.windows) == Handled(l.windows) + Coalesce(l.open) && m.open == []
            && (m.stopped <==> a.Receive?)
  {
    HandledSnoc(l.windows, l.open);
  }

  function Sends(events: seq<Event>): (actions: seq<Action>)
    ensures |actions| == |events| && forall i | 0 <= i < |events| :: actions[i] == Send(events[i])
  {
    seq(|events|, i requires 0 <= i < |events| => Send(events[i]))
  }

  lemma RunSnoc(l: Loop, actions: seq<Action>, a: Action, immediate: bool)
    ensures var m := Run(l, actions, immediate);
            Run(l, actions + [a], immediate) == if Enabled(m, a) then Step(m, a, immediate) else m
  {
    assert (actions + [a])[..|actions|] == actions;
  }

  /** A burst that the loop has no time to receive from: the first 256 events wait in order, the others are dropped. */
  lemma {:induction false} BurstFillsQueue(events: seq<Event>, immediate: bool)
    ensures var l := Run(IDLE, Sends(events), immediate);
            var n := if |events| < 256 then |events| else 256;
            l == IDLE.(queue := events[..n], dropped := |events| - n)
  {
    if events != [] {
      var front, ev := events[..|events| - 1], events[|events| - 1];
      BurstFillsQueue(front, immediate);
      RunSnoc(IDLE, Sends(front), Send(ev), immediate);
      assert Sends(events) == Sends(front) + [Send(ev)];
    }
  }

  /** Once cancelled, the loop handles nothing more, whatever its callers still do. */
  lemma {:induction false} CancelIsFinal(l: Loop, actions: seq<Action>, immediate: bool)
    requires !l.stopped
    ensures var m := Run(Step(l, Cancel, immediate), actions, immediate);
            m.stopped && Handled(m.windows) == Handled(l.windows)
  {
    if actions != [] {
      CancelIsFinal(l, actions[..|actions| - 1], immediate);
    }
  }

  function Receives(n: nat): (actions: seq<Action>) {
    if n == 0 then [] else Receives(n - 1) + [Receive]
  }

  lemma {:induction false} ClosedLoopDrains(l: Loop, before: seq<Action>, n: nat, immediate: bool)
    requires var m := Run(l, before, immediate); m.closed && !m.stopped && n <= |m.queue|
    ensures var m, t := Run(l, before, immediate), Run(l, before + Receives(n), immediate);
            t.closed && !t.stopped && t.queue == m.queue[n..]
  {
    if n == 0 {
      assert before + [] == before;
    } else {
      ClosedLoopDrains(l, before, n - 1, immediate);
      RunSnoc(l, before + Receives(n - 1), Receive, immediate);
      assert before + Receives(n) == before + Receives(n - 1) + [Receive];
    }
  }

  /** After Close the loop can receive until the queue has been drained; the next receive handles the rest and stops. */
  lemma ClosedLoopStops(l: Loop, immediate: bool)
    requires !l.closed && !l.stopped
    ensures var m := Run(l, [Close] + Receives(|l.queue|) + [Receive], immediate);
            m.stopped && m.queue == [] && m.open == []
  {
    RunSnoc(l, [], Close, immediate);
    assert [] + [Close] == [Close];
    ClosedLoopDrains(l, [Close], |l.queue|, immediate);
    RunSnoc(l, [Close] + Receives(|l.queue|), Receive, immediate);
  }

  // ---------- What a whole run guarantees ----------

  /** Kept, counted from the start of the run: n arrivals came before the window. */
  function KeptFrom(n: nat, w: Window): (p: seq<nat>)
    ensures |p| == |Kept(w)| == |Coalesce(w)|
    ensures forall k | 0 <= k < |p| :: p[k] == n + Kept(w)[k]
  {
    seq(|Kept(w)|, k requires 0 <= k < |Kept(w)| => n + Kept(w)[k])
  }

  /** The arrival index behind every handled event of a run. */
  function Provenance(windows: seq<Window>): seq<nat> {
    if windows == [] then []
    else
      var before := windows[..|windows| - 1];
      Provenance(before) + KeptFrom(|Flatten(before)|, windows[|windows| - 1])
  }

  /** A bypassing event is always a window of its own. */
  ghost predicate AloneIfBypassing(w: Window, immediate: bool) {
    |w| == 1 || forall i | 0 <= i < |w| :: !Bypasses(w[i], immediate)
  }

  ghost predicate WellWindowed(windows: seq<Window>, immediate: bool) {
    forall k | 0 <= k < |windows| :: AloneIfBypassing(windows[k], immediate)
  }

  /** The handled trace of a run is fixed by which arrivals it keeps and in what order. */
  ghost predicate TraceOf(arrivals: seq<Event>, p: seq<nat>, handled: seq<Event>, immediate: bool) {
    && Maps(arrivals, p, handled)
    && (forall i: nat | i < |arrivals| :: Settled(arrivals, p, i))
    && (forall a, b | 0 <= a < b < |p| :: InOrder(arrivals, p[a], p[b], immediate))
  }

  ghost predicate Maps(arrivals: seq<Event>, p: seq<nat>, handled: seq<Event>) {
    && |p| == |handled|
    && (forall a | 0 <= a < |p| :: p[a] < |arrivals| && handled[a] == arrivals[p[a]])
  }

  /** Handled itself, or superseded by a handled newer event of the same entity. */
  ghost predicate Settled(arrivals: seq<Event>, p: seq<nat>, i: nat)
    requires i < |arrivals|
  {
    i in p || exists j | i < j < |arrivals| :: j in p && SameEntity(arrivals[i], arrivals[j])
  }

  /** No arrival is handled twice, and only arrivals of which one coalesces may be handled out of arrival order. */
  ghost predicate InOrder(arrivals: seq<Event>, first: nat, second: nat, immediate: bool)
    requires first < |arrivals| && second < |arrivals|
  {
    && first != second
    && (second < first ==>
          && !Bypasses(arrivals[first], immediate) && !Bypasses(arrivals[second], immediate)
          && (Coalesces(arrivals[first]) || Coalesces(arrivals[second])))
  }

  lemma {:induction false} HandledTrace(windows: seq<Window>, immediate: bool)
    requires WellWindowed(windows, immediate)
    ensures TraceOf(Flatten(windows), Provenance(windows), Handled(windows), immediate)
  {
    if windows != [] {
      var before, w := windows[..|windows| - 1], windows[|windows| - 1];
      HandledTrace(before, immediate);
      TraceExtend(Flatten(before), Provenance(before), Handled(before), w, immediate);
    }
  }

  lemma TraceExtend(arrivals: seq<Event>, p: seq<nat>, handled: seq<Event>, w: Window, immediate: bool)
    requires TraceOf(arrivals, p, handled, immediate) && AloneIfBypassing(w, immediate)
    ensures TraceOf(arrivals + w, p + KeptFrom(|arrivals|, w), handled + Coalesce(w), immediate)
  {
    var all, q := arrivals + w, p + KeptFrom(|arrivals|, w);
    MapsExtend(arrivals, p, handled, w);
    forall i: nat | i < |all| ensures Settled(all, q, i) {
      SettledExtend(arrivals, p, w, i);
    }
    forall a, b | 0 <= a < b < |q| ensures InOrder(all, q[a], q[b], immediate) {
      OrderExtend(arrivals, p, handled, w, immediate, a, b);
    }
  }

  lemma OrderExtend(arrivals: seq<Event>, p: seq<nat>, handled: seq<Event>, w: Window, immediate: bool, a: nat, b: nat)
    requires Maps(arrivals, p, handled) && AloneIfBypassing(w, immediate)
    requires a < b < |p + KeptFrom(|arrivals|, w)|
    requires b < |p| ==> InOrder(arrivals, p[a], p[b], immediate)
    ensures var q := p + KeptFrom(|arrivals|, w);
            q[a] < |arrivals + w| && q[b] < |arrivals + w| && InOrder(arrivals + w, q[a], q[b], immediate)
  {
    if |p| <= a {
      OrderInWindow(arrivals, w, a - |p|, b - |p|, immediate);
    }
  }

  lemma MapsExtend(arrivals: seq<Event>, p: seq<nat>, handled: seq<Event>, w: Window)
    requires Maps(arrivals, p, handled)
    ensures Maps(arrivals + w, p + KeptFrom(|arrivals|, w), handled + Coalesce(w))
  {
  }

  lemma SettledExtend(arrivals: seq<Event>, p: seq<nat>, w: Window, i: nat)
    requires i < |arrivals| ==> Settled(arrivals, p, i)
    requires i < |arrivals + w|
    ensures Settled(arrivals + w, p + KeptFrom(|arrivals|, w), i)
  {
    var n, all, q := |arrivals|, arrivals + w, p + KeptFrom(|arrivals|, w);
    if i >= n {
      var k := WindowKeepsNewest(w, i - n);
      var j := n + Kept(w)[k];
      assert q[|p| + k] == j;
      assert all[i] == w[i - n] && all[j] == w[Kept(w)[k]];
    } else if i !in p {
      var j :| i < j < n && j in p && SameEntity(arrivals[i], arrivals[j]);
      assert j in q && all[i] == arrivals[i] && all[j] == arrivals[j];
    }
  }

  lemma OrderInWindow(arrivals: seq<Event>, w: Window, a: nat, b: nat, immediate: bool)
    requires AloneIfBypassing(w, immediate) && a < b < |Kept(w)|
    ensures InOrder(arrivals + w, |arrivals| + Kept(w)[a], |arrivals| + Kept(w)[b], immediate)
  {
    WindowHandlesEachEntityOnce(w, a, b);
  }

  function Accepted(l: Loop, actions: seq<Action>, immediate: bool): seq<Event> {
    if actions == [] then []
    else
      var rest, a := actions[..|actions| - 1], actions[|actions| - 1];
      var before := Run(l, rest, immediate);
      Accepted(l, rest, immediate)
      + if a.Send? && Enabled(before, a) && |before.queue| < QUEUE_CAP then [a.ev] else []
  }

  function Sent(l: Loop, actions: seq<Action>, immediate: bool): nat {
    if actions == [] then 0
    else
      var rest, a := actions[..|actions| - 1], actions[|actions| - 1];
      Sent(l, rest, immediate) + if a.Send? && Enabled(Run(l, rest, immediate), a) then 1 else 0
  }

  ghost predicate Sound(l: Loop, immediate: bool) {
    && |l.queue| <= QUEUE_CAP
    && WellWindowed(l.windows, immediate)
    && (forall i | 0 <= i < |l.open| :: !Bypasses(l.open[i], immediate))
  }

  /** Everything accepted so far, wherever it is now. */
  function InFlight(l: Loop): seq<Event> {
    Flatten(l.windows) + l.open + l.queue
  }

  lemma StepConserves(l: Loop, a: Action, immediate: bool)
    requires Enabled(l, a) && Sound(l, immediate)
    ensures Sound(Step(l, a, immediate), immediate)
    ensures InFlight(Step(l, a, immediate)) == InFlight(l) + if a.Send? && |l.queue| < QUEUE_CAP then [a.ev] else []
  {
    if a.Receive? && l.queue != [] {
      ReceiveConserves(l, immediate);
    } else if a.Send? {
      assert Flatten(l.windows) + l.open + (l.queue + [a.ev]) == InFlight(l) + [a.ev];
    } else {
      HandledSnoc(l.windows, l.open);
    }
  }

  lemma ReceiveConserves(l: Loop, immediate: bool)
    requires Enabled(l, Receive) && l.queue != [] && Sound(l, immediate)
    ensures Sound(Step(l, Receive, immediate), immediate)
    ensures InFlight(Step(l, Receive, immediate)) == InFlight(l)
  {
    var ev, rest := l.queue[0], l.queue[1..];
    assert l.queue == [ev] + rest;
    if Bypasses(ev, immediate) {
      FlattenTwo(l.windows, l.open, [ev]);
      WellWindowedTwo(l.windows, l.open, ev, immediate);
    } else {
      assert l.open + l.queue == (l.open + [ev]) + rest;
    }
  }

  lemma FlattenTwo(windows: seq<Window>, w: Window, v: Window)
    ensures Flatten(windows + [w, v]) == Flatten(windows) + w + v
  {
    HandledSnoc(windows, w);
    HandledSnoc(windows + [w], v);
    assert windows + [w, v] == windows + [w] + [v];
  }

  lemma WellWindowedTwo(windows: seq<Window>, w: Window, ev: Event, immediate: bool)
    requires WellWindowed(windows, immediate) && AloneIfBypassing(w, immediate)
    ensures WellWindowed(windows + [w, [ev]], immediate)
  {
  }

  /** Nothing is lost between Send and the windows, and every call of Send is accounted for. */
  lemma {:induction false} Conservation(actions: seq<Action>, immediate: bool)
    ensures var l := Run(IDLE, actions, immediate);
            && Sound(l, immediate)
            && InFlight(l) == Accepted(IDLE, actions, immediate)
            && Sent(IDLE, actions, immediate) == |Accepted(IDLE, actions, immediate)| + l.dropped
  {
    if actions != [] {
      var rest, a := actions[..|actions| - 1], actions[|actions| - 1];
      Conservation(rest, immediate);
      if Enabled(Run(IDLE, rest, immediate), a) {
        StepConserves(Run(IDLE, rest, immediate), a, immediate);
      }
    }
  }

  lemma {:induction false} StopsEmpty(actions: seq<Action>, immediate: bool)
    requires Cancel !in actions && Run(IDLE, actions, immediate).stopped
    ensures Run(IDLE, actions, immediate).open == [] && Run(IDLE, actions, immediate).queue == []
    ensures Run(IDLE, actions, immediate).closed
  {
    var rest, a := actions[..|actions| - 1], actions[|actions| - 1];
    if Run(IDLE, rest, immediate).stopped {
      StopsEmpty(rest, immediate);
    }
  }

  /** Every run: the handled trace keeps each arrival that left the channel exactly once or supersedes it. */
  lemma RunTrace(actions: seq<Action>, immediate: bool)
    ensures var l := Run(IDLE, actions, immediate);
            TraceOf(Flatten(l.windows), Provenance(l.windows), Handled(l.windows), immediate)
  {
    Conservation(actions, immediate);
    HandledTrace(Run(IDLE, actions, immediate).windows, immediate);
  }

  /** A run ended by Close rather than by cancellation settles every event Send accepted. */
  lemma ClosedRunDrains(actions: seq<Action>, immediate: bool)
    requires Cancel !in actions && Run(IDLE, actions, immediate).stopped
    ensures var l := Run(IDLE, actions, immediate);
            TraceOf(Accepted(IDLE, actions, immediate), Provenance(l.windows), Handled(l.windows), immediate)
  {
    Conservation(actions, immediate);
    StopsEmpty(actions, immediate);
    RunTrace(actions, immediate);
    var w := Flatten(Run(IDLE, actions, immediate).windows);
    assert w + [] + [] == w;
  }
}
