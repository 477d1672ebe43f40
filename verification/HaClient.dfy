// The Home Assistant client: which result a waiting command gets, across
// disconnects, and which event types each connection is subscribed to.
module HaClient {
  import opened Wrappers

  /** What lands in a waiter's channel: a result frame, or the loss of the connection. */
  datatype CmdResult = FromFrame(id: nat, success: bool) | ConnectionLost

  datatype Verdict = Answered(id: nat, success: bool) | Lost | TimedOut | Cancelled

  /** A command between send's critical section and its waiter's end. */
  datatype Phase = Writing | Waiting | SendFailed | Finished(verdict: Verdict)

  /** ch is the waiter's own one-slot channel, conn the connection the command was registered on. */
  datatype Command = Command(ch: nat, conn: nat, phase: Phase)

  /**
   * The connection goroutine: reading frames, about to put one into a channel, or failing what a lost connection
   * left.
   */
  datatype Reader = Down | Reading | Delivering(ch: nat, id: nat, success: bool) | Draining(rest: set<nat>)

  datatype Link = Link(
    conn: Option<nat>,
    connections: nat,
    channels: nat,
    pending: map<nat, nat>,
    commands: map<nat, Command>,
    slots: map<nat, CmdResult>,
    reader: Reader)

  const OFFLINE := Link(None, 0, 0, map[], map[], map[], Down)

  datatype Action =
    | Publish                          // a connection passed authentication
    | Register(id: nat)                // send's critical section
    | Written(id: nat, ok: bool)       // the write after it
    | Lookup(id: nat, success: bool)   // deliverResult's critical section
    | Put                              // its send, outside the lock
    | Unpublish                        // the deferred critical section of a lost connection
    | DrainOne(ch: nat)                // one turn of the loop after it
    | Take(id: nat)                    // the waiter receives
    | GiveUp(id: nat, timeout: bool)   // the waiter's timer or its context
    | Forget(id: nat)

  predicate Ended(p: Phase) {
    p.SendFailed? || p.Finished?
  }

  /** Register needs an id never used before: NextID hands out each one once. */
  predicate Enabled(l: Link, a: Action) {
    match a
    case Publish => l.reader.Down?
    case Register(id) => id !in l.commands
    case Written(id, _) => id in l.commands && l.commands[id].phase.Writing?
    case Lookup(_, _) => l.reader.Reading?
    case Put => l.reader.Delivering?
    case Unpublish => l.reader.Reading?
    case DrainOne(ch) => l.reader.Draining? && (ch in l.reader.rest || l.reader.rest == {})
    case Take(id) => id in l.commands && l.commands[id].phase.Waiting? && l.commands[id].ch in l.slots
    case GiveUp(id, _) => id in l.commands && l.commands[id].phase.Waiting?
    case Forget(id) => id in l.commands && Ended(l.commands[id].phase)
  }

  /** A non-blocking send on a one-slot channel. */
  function Offer(slots: map<nat, CmdResult>, ch: nat, r: CmdResult): map<nat, CmdResult> {
    if ch in slots then slots else slots[ch := r]
  }

  function InPhase(l: Link, id: nat, phase: Phase): map<nat, Command>
    requires id in l.commands
  {
    l.commands[id := l.commands[id].(phase := phase)]
  }

  function VerdictOf(r: CmdResult): Verdict {
    match r
    case FromFrame(id, success) => Answered(id, success)
    case ConnectionLost => Lost
  }

  function Step(l: Link, a: Action): Link
    requires Enabled(l, a)
  {
    match a
    case Publish => l.(conn := Some(l.connections), connections := l.connections + 1, reader := Reading)
    case Register(id) =>
      if l.conn.None? then l
      else l.(pending := l.pending[id := l.channels], channels := l.channels + 1,
              commands := l.commands[id := Command(l.channels, l.conn.value, Writing)])
    case Written(id, ok) => l.(commands := InPhase(l, id, if ok then Waiting else SendFailed))
    case Lookup(id, success) => if id in l.pending then l.(reader := Delivering(l.pending[id], id, success)) else l
    case Put => l.(slots := Offer(l.slots, l.reader.ch, FromFrame(l.reader.id, l.reader.success)), reader := Reading)
    case Unpublish => l.(conn := None, pending := map[], reader := Draining(l.pending.Values))
    case DrainOne(ch) =>
      if l.reader.rest == {} then l.(reader := Down)
      else l.(slots := Offer(l.slots, ch, ConnectionLost), reader := Draining(l.reader.rest - {ch}))
    case Take(id) =>
      var ch := l.commands[id].ch;
      l.(commands := InPhase(l, id, Finished(VerdictOf(l.slots[ch]))), slots := l.slots - {ch})
    case GiveUp(id, timeout) => l.(commands := InPhase(l, id, Finished(if timeout then TimedOut else Cancelled)))
    case Forget(id) => l.(pending := l.pending - {id})
  }

  function Run(l: Link, actions: seq<Action>): Link {
    if actions == [] then l
    else
      var before, a := Run(l, actions[..|actions| - 1]), actions[|actions| - 1];
      if Enabled(before, a) then Step(before, a) else before
  }

  // ---------- Invariant ----------

  /** Pending entries lead to live commands of the published connection, each by its own channel. */
  ghost predicate PendingSound(l: Link) {
    forall id | id in l.pending ::
      id in l.commands && l.commands[id].ch == l.pending[id] && l.conn == Some(l.commands[id].conn)
  }

  ghost predicate ChannelsDistinct(l: Link) {
    && (forall id | id in l.commands :: l.commands[id].ch < l.channels)
    && (forall i, j | i in l.commands && j in l.commands && l.commands[i].ch == l.commands[j].ch :: i == j)
  }

  /** A frame only ever sits in, or is on its way to, the channel of the command whose id it carries. */
  ghost predicate FramesRouted(l: Link) {
    && (forall id | id in l.commands && l.commands[id].ch in l.slots && l.slots[l.commands[id].ch].FromFrame? ::
          l.slots[l.commands[id].ch].id == id)
    && (forall ch | ch in l.slots :: ch < l.channels)
    && (l.reader.Delivering? ==> l.reader.id in l.commands && l.commands[l.reader.id].ch == l.reader.ch)
  }

  /** A command that has not ended is still registered, about to be failed by the drain, or has its result waiting. */
  ghost predicate Reachable(l: Link, id: nat)
    requires id in l.commands
  {
    Ended(l.commands[id].phase)
    || id in l.pending
    || (l.reader.Draining? && l.commands[id].ch in l.reader.rest)
    || l.commands[id].ch in l.slots
  }

  ghost predicate VerdictSound(id: nat, p: Phase) {
    p.Finished? && p.verdict.Answered? ==> p.verdict.id == id
  }

  ghost predicate CommandSound(l: Link, id: nat)
    requires id in l.commands
  {
    && Reachable(l, id)
    && VerdictSound(id, l.commands[id].phase)
    && l.commands[id].conn < l.connections
  }

  ghost predicate Inv(l: Link) {
    && PendingSound(l) && ChannelsDistinct(l) && FramesRouted(l)
    && (forall id | id in l.commands :: CommandSound(l, id))
    && (l.conn.Some? <==> l.reader.Reading? || l.reader.Delivering?)
    && (l.conn.Some? ==> l.conn.value == l.connections - 1)
    && (l.reader.Draining? ==> forall ch | ch in l.reader.rest :: ch < l.channels)
  }

  lemma StepPending(l: Link, a: Action)
    requires Inv(l) && Enabled(l, a)
    ensures PendingSound(Step(l, a))
  {
  }

  lemma StepChannels(l: Link, a: Action)
    requires Inv(l) && Enabled(l, a)
    ensures ChannelsDistinct(Step(l, a))
  {
  }

  lemma StepFrames(l: Link, a: Action)
    requires Inv(l) && Enabled(l, a)
    ensures FramesRouted(Step(l, a))
  {
  }

  lemma StepCommand(l: Link, a: Action, id: nat)
    requires Inv(l) && Enabled(l, a) && id in Step(l, a).commands
    ensures CommandSound(Step(l, a), id)
  {
    if id in l.commands { assert CommandSound(l, id); }
  }

  lemma StepKeepsInv(l: Link, a: Action)
    requires Inv(l) && Enabled(l, a)
    ensures Inv(Step(l, a))
  {
    StepPending(l, a);
    StepChannels(l, a);
    StepFrames(l, a);
    forall id | id in Step(l, a).commands ensures CommandSound(Step(l, a), id) {
      StepCommand(l, a, id);
    }
  }

  // ---------- What every run guarantees ----------

  lemma {:induction false} RunKeepsInv(actions: seq<Action>)
    ensures Inv(Run(OFFLINE, actions))
  {
    if actions != [] {
      var before, a := Run(OFFLINE, actions[..|actions| - 1]), actions[|actions| - 1];
      RunKeepsInv(actions[..|actions| - 1]);
      if Enabled(before, a) { StepKeepsInv(before, a); }
    }
  }

  lemma EndedStays(l: Link, a: Action, id: nat)
    requires Enabled(l, a) && id in l.commands && Ended(l.commands[id].phase)
    ensures id in Step(l, a).commands && Step(l, a).commands[id] == l.commands[id]
  {
  }

  /** A waiter's verdict is its last word: no later step changes it. */
  lemma {:induction false} VerdictIsFinal(l: Link, actions: seq<Action>, id: nat)
    requires id in l.commands && Ended(l.commands[id].phase)
    ensures id in Run(l, actions).commands && Run(l, actions).commands[id] == l.commands[id]
  {
    if actions != [] {
      var before, a := Run(l, actions[..|actions| - 1]), actions[|actions| - 1];
      VerdictIsFinal(l, actions[..|actions| - 1], id);
      if Enabled(before, a) { EndedStays(before, a, id); }
    }
  }

  /** Every answer, buffered or taken, was carried by a result frame with the waiter's own id. */
  ghost predicate AnswersCame(l: Link, actions: seq<Action>) {
    && (l.reader.Delivering? ==> Lookup(l.reader.id, l.reader.success) in actions)
    && (forall ch | ch in l.slots && l.slots[ch].FromFrame? :: Lookup(l.slots[ch].id, l.slots[ch].success) in actions)
    && (forall id | id in l.commands && l.commands[id].phase.Finished? && l.commands[id].phase.verdict.Answered? ::
          Lookup(id, l.commands[id].phase.verdict.success) in actions)
  }

  lemma {:induction false} AnswersComeFromFrames(actions: seq<Action>)
    ensures AnswersCame(Run(OFFLINE, actions), actions)
  {
    if actions != [] {
      var rest, a := actions[..|actions| - 1], actions[|actions| - 1];
      AnswersComeFromFrames(rest);
      RunKeepsInv(rest);
      assert forall b | b in rest :: b in actions;
      assert a in actions;
      if Enabled(Run(OFFLINE, rest), a) { AnswersStep(Run(OFFLINE, rest), a, actions); }
    }
  }

  lemma AnswersStep(l: Link, a: Action, actions: seq<Action>)
    requires Inv(l) && Enabled(l, a) && AnswersCame(l, actions) && a in actions
    ensures AnswersCame(Step(l, a), actions)
  {
  }

  /** A connection-loss verdict, buffered or taken, is only given to commands of a connection that is gone. */
  ghost predicate LossesReal(l: Link) {
    forall id | id in l.commands && l.conn == Some(l.commands[id].conn) ::
      && l.commands[id].phase != Finished(Lost)
      && (l.commands[id].ch in l.slots ==> l.slots[l.commands[id].ch] != ConnectionLost)
  }

  lemma LossesStep(l: Link, a: Action)
    requires Inv(l) && Enabled(l, a) && LossesReal(l)
    ensures LossesReal(Step(l, a))
  {
    if a.Publish? {
      forall id | id in l.commands ensures l.commands[id].conn < l.connections {
        assert CommandSound(l, id);
      }
    }
  }

  lemma {:induction false} LossesAreReal(actions: seq<Action>)
    ensures LossesReal(Run(OFFLINE, actions))
  {
    if actions != [] {
      var rest, a := actions[..|actions| - 1], actions[|actions| - 1];
      LossesAreReal(rest);
      RunKeepsInv(rest);
      if Enabled(Run(OFFLINE, rest), a) { LossesStep(Run(OFFLINE, rest), a); }
    }
  }

  /** Commands are pending only while a connection is published, and only that connection's. */
  lemma PendingNeedsConnection(actions: seq<Action>, id: nat)
    requires id in Run(OFFLINE, actions).pending
    ensures var l := Run(OFFLINE, actions);
            id in l.commands && l.conn == Some(l.commands[id].conn) && l.pending[id] == l.commands[id].ch
  {
    RunKeepsInv(actions);
  }

  /** Once the drain is through, each command of a lost connection has a verdict buffered or its waiter is done. */
  lemma DrainSettlesEveryCommand(actions: seq<Action>, id: nat)
    requires var l := Run(OFFLINE, actions);
             id in l.commands && l.conn != Some(l.commands[id].conn) && !l.reader.Draining?
    ensures var l := Run(OFFLINE, actions); Ended(l.commands[id].phase) || l.commands[id].ch in l.slots
  {
    RunKeepsInv(actions);
    assert CommandSound(Run(OFFLINE, actions), id);
  }

  // ---------- Every command gets its verdict ----------

  lemma RunSnoc(l: Link, actions: seq<Action>, a: Action)
    ensures Run(l, actions + [a]) == if Enabled(Run(l, actions), a) then Step(Run(l, actions), a) else Run(l, actions)
  {
    assert (actions + [a])[..|actions|] == actions;
  }

  lemma RunOne(l: Link, a: Action)
    ensures Run(l, [a]) == if Enabled(l, a) then Step(l, a) else l
  {
    RunSnoc(l, [], a);
    assert [] + [a] == [a];
  }

  lemma {:induction false} RunMore(l: Link, first: seq<Action>, more: seq<Action>)
    ensures Run(l, first + more) == Run(Run(l, first), more)
  {
    if more == [] {
      assert first + more == first;
    } else {
      var rest, a := more[..|more| - 1], more[|more| - 1];
      assert first + more == first + rest + [a] && more == rest + [a];
      RunMore(l, first, rest);
      RunSnoc(l, first + rest, a);
      RunSnoc(Run(l, first), rest, a);
    }
  }

  /** Nothing has been put aside for the waiter of id yet. */
  predicate StillWaits(l: Link, id: nat) {
    id in l.pending && id in l.commands && l.commands[id].phase.Waiting? && l.commands[id].ch !in l.slots
  }

  /** A command sent over a connection is registered under a channel of its own and, once written, waits for it. */
  lemma SentCommandWaits(l: Link, id: nat)
    requires Inv(l) && l.conn.Some? && id !in l.commands
    ensures var m := Run(l, [Register(id), Written(id, true)]);
            && StillWaits(m, id) && m.pending == l.pending[id := l.channels] && m.slots == l.slots
            && m.commands == l.commands[id := Command(l.channels, l.conn.value, Waiting)]
            && m.conn == l.conn && m.reader == l.reader
  {
    RunOne(l, Register(id));
    RunSnoc(l, [Register(id)], Written(id, true));
    assert [Register(id)] + [Written(id, true)] == [Register(id), Written(id, true)];
  }

  /** One that cannot be written is an error, and not registered any more: */
  lemma FailedSendLeavesNothing(l: Link, id: nat)
    requires Inv(l) && l.conn.Some? && id !in l.commands
    ensures var m := Run(l, [Register(id), Written(id, false), Forget(id)]);
            m.pending == l.pending && id in m.commands && m.commands[id].phase == SendFailed && m.slots == l.slots
  {
    assert id !in l.pending;
    var l1 := Step(l, Register(id));
    var l2 := Step(l1, Written(id, false));
    RunOne(l, Register(id));
    RunSnoc(l, [Register(id)], Written(id, false));
    assert [Register(id)] + [Written(id, false)] == [Register(id), Written(id, false)];
    RunSnoc(l, [Register(id), Written(id, false)], Forget(id));
    assert [Register(id), Written(id, false)] + [Forget(id)] == [Register(id), Written(id, false), Forget(id)];
    assert l.pending[id := l.channels] - {id} == l.pending;
  }

  /** without a connection it never was. */
  lemma OfflineSendLeavesNothing(l: Link, id: nat)
    requires l.conn.None?
    ensures Run(l, [Register(id)]) == l
  {
    RunOne(l, Register(id));
  }

  predicate GivesUp(a: Action, id: nat) {
    a.GiveUp? && a.id == id
  }

  /** The waiter of id has r, or will find it in its channel, or it is about to be put there. */
  predicate OnItsWay(l: Link, id: nat, r: CmdResult) {
    && id in l.commands
    && var c := l.commands[id];
       || c.phase == Finished(VerdictOf(r))
       || (c.phase.Waiting? &&
           if c.ch in l.slots then l.slots[c.ch] == r
           else if r.FromFrame? then l.reader == Delivering(c.ch, r.id, r.success)
           else l.reader.Draining? && c.ch in l.reader.rest)
  }

  lemma StaysOnItsWay(l: Link, a: Action, id: nat, r: CmdResult)
    requires Inv(l) && Enabled(l, a) && OnItsWay(l, id, r) && !GivesUp(a, id)
    ensures OnItsWay(Step(l, a), id, r)
  {
  }

  lemma {:induction false} KeepsComing(l: Link, moves: seq<Action>, id: nat, r: CmdResult)
    requires Inv(l) && OnItsWay(l, id, r) && forall a | a in moves :: !GivesUp(a, id)
    ensures Inv(Run(l, moves)) && OnItsWay(Run(l, moves), id, r)
  {
    if moves != [] {
      var rest, a := moves[..|moves| - 1], moves[|moves| - 1];
      assert a in moves;
      KeepsComing(l, rest, id, r);
      if Enabled(Run(l, rest), a) {
        StepKeepsInv(Run(l, rest), a);
        StaysOnItsWay(Run(l, rest), a, id, r);
      }
    }
  }

  /** What is on its way arrives: the connection goroutine's next step and the waiter's do it. */
  lemma Arrives(l: Link, put: Action, id: nat, r: CmdResult)
    requires Inv(l) && OnItsWay(l, id, r)
    requires if r.FromFrame? then put == Put else put == DrainOne(l.commands[id].ch)
    ensures var t := Run(l, [put, Take(id)]);
            id in t.commands && t.commands[id].phase == Finished(VerdictOf(r))
  {
    RunMore(l, [put], [Take(id)]);
    assert [put] + [Take(id)] == [put, Take(id)];
    RunOne(l, put);
    RunOne(Run(l, [put]), Take(id));
    if Enabled(l, put) { StaysOnItsWay(l, put, id, r); }
  }

  /**
   * The result frame of a waiting command is its answer, whatever happens until the waiter looks, short of the waiter
   * giving up: later frames, a lost connection or a new one take nothing away.
   */
  lemma AnswerReaches(l: Link, id: nat, success: bool, moves: seq<Action>)
    requires Inv(l) && l.reader.Reading? && StillWaits(l, id) && forall a | a in moves :: !GivesUp(a, id)
    ensures var t := Run(l, [Lookup(id, success)] + moves + [Put, Take(id)]);
            id in t.commands && t.commands[id].phase == Finished(Answered(id, success))
  {
    var l1 := Run(l, [Lookup(id, success)]);
    RunOne(l, Lookup(id, success));
    StepKeepsInv(l, Lookup(id, success));
    KeepsComing(l1, moves, id, FromFrame(id, success));
    RunMore(l, [Lookup(id, success)], moves);
    RunMore(l, [Lookup(id, success)] + moves, [Put, Take(id)]);
    Arrives(Run(l1, moves), Put, id, FromFrame(id, success));
  }

  /** And so is the loss of its connection, if that comes first: no frame of a later connection is taken for it. */
  lemma LossReaches(l: Link, id: nat, moves: seq<Action>)
    requires Inv(l) && l.reader.Reading? && StillWaits(l, id) && forall a | a in moves :: !GivesUp(a, id)
    ensures var t := Run(l, [Unpublish] + moves + [DrainOne(l.commands[id].ch), Take(id)]);
            id in t.commands && t.commands[id].phase == Finished(Lost)
  {
    var l1 := Run(l, [Unpublish]);
    RunOne(l, Unpublish);
    StepKeepsInv(l, Unpublish);
    assert l.pending[id] in l.pending.Values;
    KeepsComing(l1, moves, id, ConnectionLost);
    ChannelStays(l1, moves, id);
    RunMore(l, [Unpublish], moves);
    RunMore(l, [Unpublish] + moves, [DrainOne(l.commands[id].ch), Take(id)]);
    Arrives(Run(l1, moves), DrainOne(l.commands[id].ch), id, ConnectionLost);
  }

  lemma {:induction false} ChannelStays(l: Link, moves: seq<Action>, id: nat)
    requires id in l.commands
    ensures id in Run(l, moves).commands && Run(l, moves).commands[id].ch == l.commands[id].ch
  {
    if moves != [] { ChannelStays(l, moves[..|moves| - 1], id); }
  }

  /** A waiter whose timer fires or whose context ends is done at once, and stays so whatever arrives later. */
  lemma GivingUpIsFinal(l: Link, id: nat, timeout: bool, moves: seq<Action>)
    requires id in l.commands && l.commands[id].phase.Waiting?
    ensures var t := Run(l, [GiveUp(id, timeout)] + moves);
            id in t.commands && t.commands[id].phase == Finished(if timeout then TimedOut else Cancelled)
  {
    RunOne(l, GiveUp(id, timeout));
    RunMore(l, [GiveUp(id, timeout)], moves);
    VerdictIsFinal(Run(l, [GiveUp(id, timeout)]), moves, id);
  }

  /** A frame nobody waits for, such as one for a command that was forgotten, is dropped. */
  lemma UnawaitedFrameIsDropped(l: Link, id: nat, success: bool)
    ensures id !in l.pending ==> Run(l, [Lookup(id, success)]) == l
    ensures id in l.commands && Ended(l.commands[id].phase) ==>
              Run(l, [Forget(id), Lookup(id, success)]) == l.(pending := l.pending - {id})
  {
    RunOne(l, Lookup(id, success));
    RunOne(l, Forget(id));
    RunMore(l, [Forget(id)], [Lookup(id, success)]);
    assert [Forget(id)] + [Lookup(id, success)] == [Forget(id), Lookup(id, success)];
    RunOne(Run(l, [Forget(id)]), Lookup(id, success));
  }

  /** The drain ends after one turn per channel, and the client can connect again. */
  lemma {:induction false} DrainEnds(l: Link) returns (moves: seq<Action>)
    requires l.reader.Draining?
    ensures |moves| == |l.reader.rest| + 1 && forall a | a in moves :: a.DrainOne?
    ensures var t := Run(l, moves + [Publish]);
            && t.reader.Reading? && t.conn == Some(l.connections) && t.connections == l.connections + 1
            && t.pending == l.pending && t.commands == l.commands
    decreases |l.reader.rest|
  {
    var ch: nat := if ch: nat :| ch in l.reader.rest then ch else 0;
    RunOne(l, DrainOne(ch));
    if l.reader.rest == {} {
      moves := [DrainOne(ch)];
      RunSnoc(l, moves, Publish);
    } else {
      var rest := DrainEnds(Step(l, DrainOne(ch)));
      moves := [DrainOne(ch)] + rest;
      RunMore(l, [DrainOne(ch)], rest + [Publish]);
      assert moves + [Publish] == [DrainOne(ch)] + (rest + [Publish]);
    }
  }

  // ---------- The client ----------

  /** A waiter's one-slot channel, shared by the waiter, the pending table and the connection goroutine. */
  class Chan {
    const number: nat
    var slot: Option<CmdResult>

    constructor (number: nat)
      ensures this.number == number && slot == None
    {
      this.number, slot := number, None;
    }

    /** A send that never blocks: a full channel drops the value. */
    method Offer(r: CmdResult)
      modifies this
      ensures slot == if old(slot).Some? then old(slot) else Some(r)
    {
      if slot == None {
        slot := Some(r);
      }
    }
  }

  datatype Waiter = Waiter(ch: Chan, conn: nat, phase: Phase)

  datatype Connection = Off | Reads | Delivers(ch: Chan, id: nat, success: bool) | Drains(rest: set<Chan>)

  function NumberOf(c: Chan): nat {
    c.number
  }

  function CommandOf(w: Waiter): Command {
    Command(w.ch.number, w.conn, w.phase)
  }

  lemma SomeNumber(s: set<Chan>)
    requires s != {}
    ensures Image(s, NumberOf) != {}
  {
    var c :| c in s;
    assert NumberOf(c) in Image(s, NumberOf);
  }

  /** made only records the channels made, in order. */
  class Client {
    var conn: Option<nat>
    var connections: nat
    var made: seq<Chan>
    var pending: map<nat, Chan>
    var waiters: map<nat, Waiter>
    var connection: Connection

    ghost function Made(): set<Chan>
      reads `made
    {
      set c | c in made
    }

    ghost predicate Valid()
      reads this
    {
      && NumberedBy(made, NumberOf)
      && (forall id | id in pending :: pending[id] in Made())
      && (forall id | id in waiters :: waiters[id].ch in Made())
      && (connection.Delivers? ==> connection.ch in Made())
      && (connection.Drains? ==> forall c | c in connection.rest :: c in Made())
    }

    function ReaderView(): Reader
      reads `connection
    {
      match connection
      case Off => Down
      case Reads => Reading
      case Delivers(ch, id, success) => Delivering(ch.number, id, success)
      case Drains(rest) => Draining(Image(rest, NumberOf))
    }

    function Slots(): map<nat, CmdResult>
      reads `made, Made()
    {
      map n: nat | n < |made| && made[n].slot.Some? :: made[n].slot.value
    }

    /** The client with its channels told apart by number. */
    function View(): Link
      reads this, Made()
    {
      Link(conn, connections, |made|, MapValues(pending, NumberOf), MapValues(waiters, CommandOf), Slots(),
          ReaderView())
    }

    method NewChan() returns (ch: Chan)
      requires NumberedBy(made, NumberOf)
      modifies `made
      ensures fresh(ch) && ch.number == old(|made|) && |made| == old(|made|) + 1 && NumberedBy(made, NumberOf)
      ensures Made() == old(Made()) + {ch}
      ensures Slots() == old(Slots())
    {
      ch := new Chan(|made|);
      made := made + [ch];
    }

    method OfferTo(ch: Chan, r: CmdResult)
      requires NumberedBy(made, NumberOf) && ch in made
      modifies Made()
      ensures Slots() == Offer(old(Slots()), ch.number, r)
    {
      assert made[ch.number] == ch by { var i :| 0 <= i < |made| && made[i] == ch; }
      ch.Offer(r);
    }

    method TakeFrom(ch: Chan) returns (r: CmdResult)
      requires NumberedBy(made, NumberOf) && ch in made && ch.slot.Some?
      modifies Made()
      ensures ch.number in old(Slots()) && r == old(Slots())[ch.number] && Slots() == old(Slots()) - {ch.number}
    {
      assert made[ch.number] == ch by { var i :| 0 <= i < |made| && made[i] == ch; }
      r := ch.slot.value;
      ch.slot := None;
    }

    lemma HasSlot(ch: Chan)
      requires NumberedBy(made, NumberOf) && ch in made
      ensures ch.slot.Some? <==> ch.number in Slots()
    {
      var i :| 0 <= i < |made| && made[i] == ch;
    }

    constructor ()
      ensures Valid() && made == [] && View() == OFFLINE
    {
      conn, connections, made := None, 0, [];
      pending, waiters, connection := map[], map[], Off;
    }

    method PublishConn()
      requires Valid() && Enabled(View(), Publish)
      modifies this
      ensures Valid() && made == old(made) && View() == Step(old(View()), Publish)
    {
      conn := Some(connections);
      connections := connections + 1;
      connection := Reads;
    }

    /** send, up to the unlock: no connection is an error to the caller, who then never waits. */
    method Send(id: nat) returns (ok: bool)
      requires Valid() && Enabled(View(), Register(id))
      modifies this
      ensures Valid() && fresh(Made() - old(Made()))
      ensures View() == Step(old(View()), Register(id))
      ensures ok <==> old(conn).Some?
    {
      ok := conn.Some?;
      if ok {
        RegisterCommand(id);
      }
    }

    method RegisterCommand(id: nat)
      requires Valid() && conn.Some? && Enabled(View(), Register(id))
      modifies this
      ensures Valid() && fresh(Made() - old(Made()))
      ensures View() == Step(old(View()), Register(id))
    {
      var ch := NewChan();
      MapValuesUpdate(pending, NumberOf, id, ch);
      MapValuesUpdate(waiters, CommandOf, id, Waiter(ch, conn.value, Writing));
      pending := pending[id := ch];
      waiters := waiters[id := Waiter(ch, conn.value, Writing)];
    }

    method WriteDone(id: nat, ok: bool)
      requires Valid() && Enabled(View(), Written(id, ok))
      modifies this
      ensures Valid() && made == old(made) && View() == Step(old(View()), Written(id, ok))
    {
      MapValuesUpdate(waiters, CommandOf, id, waiters[id].(phase := if ok then Waiting else SendFailed));
      waiters := waiters[id := waiters[id].(phase := if ok then Waiting else SendFailed)];
    }

    method DeliverResult(id: nat, success: bool)
      requires Valid() && Enabled(View(), Lookup(id, success))
      modifies this
      ensures Valid() && made == old(made) && View() == Step(old(View()), Lookup(id, success))
    {
      if id in pending {
        connection := Delivers(pending[id], id, success);
      }
    }

    method PutResult()
      requires Valid() && Enabled(View(), Put)
      modifies this, Made()
      ensures Valid() && made == old(made) && View() == Step(old(View()), Put)
    {
      OfferTo(connection.ch, FromFrame(connection.id, connection.success));
      connection := Reads;
    }

    method UnpublishConn()
      requires Valid() && Enabled(View(), Unpublish)
      modifies this
      ensures Valid() && made == old(made) && View() == Step(old(View()), Unpublish)
    {
      ImageOfValues(pending, NumberOf);
      conn := None;
      connection := Drains(pending.Values);
      pending := map[];
    }

    /** One turn of the drain's loop over the channels it took. */
    method FailNext(ch: Chan)
      requires Valid() && connection.Drains? && ch in connection.rest
      modifies this, Made()
      ensures Valid() && made == old(made) && View() == Step(old(View()), DrainOne(ch.number))
    {
      assert ch.number in Image(connection.rest, NumberOf);
      ImageMinus(made, connection.rest, NumberOf, ch);
      OfferTo(ch, ConnectionLost);
      connection := Drains(connection.rest - {ch});
    }

    method EndDrain(ghost ch: nat)
      requires Valid() && connection == Drains({})
      modifies this
      ensures Valid() && made == old(made) && View() == Step(old(View()), DrainOne(ch))
    {
      assert Image(connection.rest, NumberOf) == {};
      connection := Off;
    }

    method Receive(id: nat) returns (verdict: Verdict)
      requires Valid() && Enabled(View(), Take(id))
      modifies this, Made()
      ensures Valid() && made == old(made) && View() == Step(old(View()), Take(id))
      ensures id in waiters && waiters[id].phase == Finished(verdict)
    {
      var ch := waiters[id].ch;
      HasSlot(ch);
      var r := TakeFrom(ch);
      verdict := VerdictOf(r);
      MapValuesUpdate(waiters, CommandOf, id, waiters[id].(phase := Finished(verdict)));
      waiters := waiters[id := waiters[id].(phase := Finished(verdict))];
    }

    method GiveUpWaiting(id: nat, timeout: bool)
      requires Valid() && Enabled(View(), GiveUp(id, timeout))
      modifies this
      ensures Valid() && made == old(made) && View() == Step(old(View()), GiveUp(id, timeout))
    {
      MapValuesUpdate(waiters, CommandOf, id, waiters[id].(phase := Finished(if timeout then TimedOut else Cancelled)));
      waiters := waiters[id := waiters[id].(phase := Finished(if timeout then TimedOut else Cancelled))];
    }

    method ForgetCommand(id: nat)
      requires Valid() && Enabled(View(), Forget(id))
      modifies this
      ensures Valid() && made == old(made) && View() == Step(old(View()), Forget(id))
    {
      MapValuesRemove(pending, NumberOf, id);
      pending := pending - {id};
    }

    /** Any interleaving of the steps, each taken by its method when it is enabled. */
    method Interleave(actions: seq<Action>)
      requires Valid()
      modifies this, Made()
      ensures Valid() && View() == Run(old(View()), actions)
    {
      for i := 0 to |actions|
        invariant Valid() && View() == Run(old(View()), actions[..i])
        invariant fresh(Made() - old(Made()))
      {
        assert actions[..i + 1][..i] == actions[..i];
        if Enabled(View(), actions[i]) {
          Perform(actions[i]);
        }
      }
      assert actions[..|actions|] == actions;
    }

    method Perform(a: Action)
      requires Valid() && Enabled(View(), a)
      modifies this, Made()
      ensures Valid() && View() == Step(old(View()), a)
      ensures fresh(Made() - old(Made()))
    {
      match a {
        case Publish => PublishConn();
        case Register(id) => var _ := Send(id);
        case Written(id, ok) => WriteDone(id, ok);
        case Lookup(id, success) => DeliverResult(id, success);
        case Put => PutResult();
        case Unpublish => UnpublishConn();
        case DrainOne(n) =>
          if connection.rest == {} {
            EndDrain(n);
          } else {
            SomeNumber(connection.rest);
            ByNumber(made, connection.rest, NumberOf, n);
            FailNext(made[n]);
          }
        case Take(id) => var _ := Receive(id);
        case GiveUp(id, timeout) => GiveUpWaiting(id, timeout);
        case Forget(id) => ForgetCommand(id);
      }
    }
  }

  // ---------- Subscriptions ----------

  const STATE_CHANGED: string := "state_changed"

  /** What list adds to seen, each type once, in list order. */
  function Fresh(list: seq<string>, seen: set<string>): seq<string> {
    if list == [] then []
    else
      var rest, t := list[..|list| - 1], list[|list| - 1];
      if t in seen || t in rest then Fresh(rest, seen) else Fresh(rest, seen) + [t]
  }

  lemma {:induction false} FreshIs(list: seq<string>, seen: set<string>)
    ensures forall t :: t in Fresh(list, seen) <==> t in list && t !in seen
    ensures NoDup(Fresh(list, seen)) && |Fresh(list, seen)| <= |list|
  {
    if list != [] {
      assert list == list[..|list| - 1] + [list[|list| - 1]];
      FreshIs(list[..|list| - 1], seen);
    }
  }

  /** Subscribe commands of one connection: decided under the lock and not yet written, written, and failed. */
  datatype Commands = Commands(writing: set<string>, sent: seq<string>, lost: set<string>) {
    /** No type is written twice. */
    ghost predicate Sound() {
      && NoDup(sent) && writing !! lost
      && (forall t | t in sent :: t !in writing && t !in lost)
    }

    predicate Has(t: string) {
      t in writing || t in sent || t in lost
    }
  }

  /** A write that was decided on, done or failed, leaves the type accounted for. */
  lemma WriteKeeps(k: Commands, t: string)
    requires k.Sound() && t in k.writing
    ensures var done, failed := k.(writing := k.writing - {t}, sent := k.sent + [t]),
                                k.(writing := k.writing - {t}, lost := k.lost + {t});
            done.Sound() && failed.Sound() && forall u :: (done.Has(u) <==> k.Has(u)) && (failed.Has(u) <==> k.Has(u))
  {
    assert t !in k.sent && forall i | 0 <= i < |k.sent| :: k.sent[i] in k.sent;
  }

  class Subscriptions {
    var conn: Option<nat>
    var connections: nat
    var eventTypes: seq<string>
    var subscribed: set<string>
    var issued: map<nat, Commands>
    var phaseDone: bool

    /** No type is subscribed twice on a connection, and once the subscribe phase has decided none is missing. */
    ghost predicate Valid()
      reads this
    {
      && NoDup(eventTypes)
      && (forall c | c in issued :: c < connections && issued[c].Sound())
      && (forall t | t in subscribed :: t == STATE_CHANGED || t in eventTypes)
      && (conn.Some? ==> conn.value in issued && forall t :: t in subscribed <==> issued[conn.value].Has(t))
      && (conn.Some? && phaseDone ==> STATE_CHANGED in subscribed && forall t | t in eventTypes :: t in subscribed)
    }

    constructor ()
      ensures Valid() && conn.None? && eventTypes == [] && issued == map[]
    {
      conn, connections, eventTypes, subscribed, issued, phaseDone := None, 0, [], {}, map[], false;
    }

    /** Returns the connection the caller is to write the subscribe command on, if any. */
    method AddEventType(t: string) returns (on: Option<nat>)
      requires Valid()
      modifies this
      ensures Valid() && conn == old(conn) && connections == old(connections) && phaseDone == old(phaseDone)
      ensures eventTypes == if t in old(eventTypes) then old(eventTypes) else old(eventTypes) + [t]
      ensures on == if t in old(eventTypes) || t in old(subscribed) then None else conn
      ensures on.None? ==> issued == old(issued)
      ensures on.Some? ==>
                var k := old(issued)[conn.value];
                issued == old(issued)[conn.value := Commands(k.writing + {t}, k.sent, k.lost)]
      ensures subscribed == if on.Some? then old(subscribed) + {t} else old(subscribed)
    {
      if t in eventTypes {
        return None;
      }
      eventTypes := eventTypes + [t];
      if conn.Some? && t !in subscribed {
        subscribed := subscribed + {t};
        issued := issued[conn.value := issued[conn.value].(writing := issued[conn.value].writing + {t})];
        return conn;
      }
      return None;
    }

    method PublishConn()
      requires Valid() && conn.None?
      modifies this
      ensures Valid() && conn == Some(old(connections)) && connections == old(connections) + 1 && !phaseDone
      ensures subscribed == {} && eventTypes == old(eventTypes)
      ensures issued == old(issued)[old(connections) := Commands({}, [], {})]
    {
      conn := Some(connections);
      issued := issued[connections := Commands({}, [], {})];
      connections := connections + 1;
      subscribed, phaseDone := {}, false;
    }

    method UnpublishConn()
      requires Valid()
      modifies this
      ensures Valid() && conn.None? && connections == old(connections)
      ensures eventTypes == old(eventTypes) && issued == old(issued)
    {
      conn := None;
    }

    /** The subscribe phase's critical section: filters the list of types in place; the writes come after it. */
    method SubscribePhase() returns (toSend: seq<string>)
      requires Valid() && conn.Some?
      modifies this
      ensures Valid() && phaseDone && conn == old(conn) && connections == old(connections)
              && eventTypes == old(eventTypes)
      ensures toSend == Fresh([STATE_CHANGED] + eventTypes, old(subscribed))
      ensures var k := old(issued)[conn.value];
              issued == old(issued)[conn.value := Commands(k.writing + (set t | t in toSend), k.sent, k.lost)]
    {
      toSend := FilterNew();
      FreshIs([STATE_CHANGED] + eventTypes, old(subscribed));
      var k := issued[conn.value];
      issued := issued[conn.value := k.(writing := k.writing + (set t | t in toSend))];
      phaseDone := true;
    }

    /** One subscribe command is written, by whoever decided on it and whether or not its connection still stands. */
    method Write(c: nat, t: string, ok: bool)
      requires Valid() && c in issued && t in issued[c].writing
      modifies `issued
      ensures Valid()
      ensures var k := old(issued)[c];
              issued == old(issued)[c := if ok then Commands(k.writing - {t}, k.sent + [t], k.lost)
                                         else Commands(k.writing - {t}, k.sent, k.lost + {t})]
    {
      var k := issued[c];
      WriteKeeps(k, t);
      if ok {
        issued := issued[c := k.(writing := k.writing - {t}, sent := k.sent + [t])];
      } else {
        issued := issued[c := k.(writing := k.writing - {t}, lost := k.lost + {t})];
      }
    }

    /** When every write of a connection's phase has succeeded, it has subscribed exactly the known types, each once. */
    lemma SubscribedExactlyOnce()
      requires Valid() && conn.Some? && phaseDone
      requires issued[conn.value].writing == {} && issued[conn.value].lost == {}
      ensures NoDup(issued[conn.value].sent)
      ensures forall t :: t in issued[conn.value].sent <==> t == STATE_CHANGED || t in eventTypes
    {
      forall t ensures t in issued[conn.value].sent <==> t == STATE_CHANGED || t in eventTypes {
        assert t in subscribed <==> issued[conn.value].Has(t);
      }
    }

    method FilterNew() returns (toSend: seq<string>)
      modifies `subscribed
      ensures toSend == Fresh([STATE_CHANGED] + eventTypes, old(subscribed))
      ensures forall t :: t in subscribed <==> t in old(subscribed) || t in [STATE_CHANGED] + eventTypes
    {
      ghost var all, kept := [STATE_CHANGED] + eventTypes, [];
      toSend := [STATE_CHANGED] + eventTypes;
      var n := 0;
      for i := 0 to |toSend|
        invariant n <= i && |toSend| == |all| && |kept| == n
        invariant forall k | i <= k < |all| :: toSend[k] == all[k]
        invariant forall k | 0 <= k < n :: toSend[k] == kept[k]
        invariant kept == Fresh(all[..i], old(subscribed))
        invariant forall t :: t in subscribed <==> t in old(subscribed) || t in all[..i]
      {
        var et := toSend[i];
        FreshIs(all[..i], old(subscribed));
        assert all[..i + 1] == all[..i] + [et] && all[..i + 1][..i] == all[..i];
        if et in subscribed {
          continue;
        }
        subscribed := subscribed + {et};
        kept := kept + [et];
        toSend := toSend[n := et];
        n := n + 1;
      }
      assert all[..|toSend|] == all;
      toSend := toSend[..n];
    }
  }
}
