// The tracker's goroutines side by side: one seeding, one applying events, one
// writing. A seed releases the mirror's lock before it enqueues its rows, and
// an event before it enqueues its own, so rows can reach the queue in another
// order than their values reached the mirror.
module SeedRaces {
  import opened Tracker
  import opened Wrappers

  /** The seeding goroutine: idle, about to read history, about to merge, or with rows still to enqueue. */
  datatype Seeding =
    | Resting
    | Reading(batch: seq<StateData>)
    | Ready(batch: seq<StateData>, baseline: map<string, Row>)
    | Appending(rows: seq<Row>)

  /** event is the row of a change already in the mirror and not yet in the queue. */
  datatype Race = Race(mem: Mirror, queue: seq<Row>, history: seq<Row>, seeding: Seeding, event: Option<Row>) {
    function Rows(): seq<Row> { history + queue }

    function Pending(): seq<Row> { if seeding.Appending? then seeding.rows else [] }

    function Event(): seq<Row> { if event.Some? then [event.value] else [] }
  }

  datatype Move =
    | Look(states: seq<StateData>)   // Seed's cold check, under the read lock
    | Read                           // the history baseline of a cold seed
    | Merge                          // under the write lock
    | AppendOne                      // one turn of the loop after it
    | Write(change: Change)          // an event's change to the mirror
    | Enqueue                        // and then its row
    | Committed(n: nat)              // the writer

  predicate Enabled(s: Race, a: Move) {
    match a
    case Look(_) => s.seeding.Resting?
    case Read => s.seeding.Reading?
    case Merge => s.seeding.Ready?
    case AppendOne => s.seeding.Appending?
    case Write(_) => s.event.None?
    case Enqueue => s.event.Some?
    case Committed(_) => true
  }

  function Take(s: Race, a: Move): Race
    requires Enabled(s, a)
  {
    match a
    case Look(states) =>
      if states == [] then s
      else if s.mem == map[] then s.(seeding := Reading(NormalisedAll(states)))
      else s.(seeding := Ready(NormalisedAll(states), map[]))
    case Read => s.(seeding := Ready(s.seeding.batch, Baseline(s.history)))
    case Merge =>
      var rows := MergeRows(s.mem, s.seeding.baseline, s.seeding.batch);
      s.(mem := MergeMem(s.mem, s.seeding.batch), seeding := Appending(rows))
    case AppendOne =>
      if s.seeding.rows == [] then s.(seeding := Resting)
      else s.(queue := s.queue + [s.seeding.rows[0]], seeding := Appending(s.seeding.rows[1..]))
    case Write(Undecodable) => s
    case Write(Removed(id)) => s.(mem := s.mem - {id})
    case Write(Changed(x)) => s.(mem := s.mem[x.entityId := Normalised(x)], event := Some(RowOf(Normalised(x))))
    case Enqueue => s.(queue := s.queue + [s.event.value], event := None)
    case Committed(n) =>
      var k := if n < |s.queue| then n else |s.queue|;
      s.(queue := s.queue[k..], history := s.history + s.queue[..k])
  }

  function TakeAll(s: Race, moves: seq<Move>): Race {
    if moves == [] then s
    else
      var before, a := TakeAll(s, moves[..|moves| - 1]), moves[|moves| - 1];
      if Enabled(before, a) then Take(before, a) else before
  }

  lemma TakeSnoc(s: Race, moves: seq<Move>, a: Move)
    ensures TakeAll(s, moves + [a]) == if Enabled(TakeAll(s, moves), a) then Take(TakeAll(s, moves), a)
            else TakeAll(s, moves)
  {
    assert (moves + [a])[..|moves|] == moves;
  }

  // ---------- Agreement, with rows still on their way ----------

  predicate EventOf(s: Race, id: string) {
    s.event.Some? && s.event.value.entityId == id
  }

  predicate PendingOf(s: Race, id: string) {
    id in Baseline(s.Pending())
  }

  /**
   * Whichever of the rows on their way to the queue arrives last, it carries what the mirror holds; without any,
   * the newest row does.
   */
  predicate SafeAt(s: Race, id: string) {
    id in s.mem ==>
      && s.mem[id].entityId == id
      && (PendingOf(s, id) ==> Baseline(s.Pending())[id] == RowOf(s.mem[id]))
      && (EventOf(s, id) ==> s.event.value == RowOf(s.mem[id]))
      && (!PendingOf(s, id) && !EventOf(s, id) ==> Shows(s.Rows(), s.mem[id]))
  }

  ghost predicate Safe(s: Race) {
    forall id :: SafeAt(s, id)
  }

  /** With nothing on its way, safety is the agreement of mirror and newest rows. */
  lemma QuietMeansMirrors(s: Race)
    requires s.Pending() == [] && s.event.None?
    ensures Safe(s) <==> Mirrors(s.mem, s.Rows())
  {
    if Safe(s) {
      forall id | id in s.mem
        ensures s.mem[id].entityId == id && id in Baseline(s.Rows()) && Baseline(s.Rows())[id] == RowOf(s.mem[id])
      {
        assert SafeAt(s, id);
      }
    }
  }

  // ---------- Which moves keep it ----------

  /** No different row of the changed entity is still waiting in the seeding goroutine. */
  predicate Clear(s: Race, x: StateData) {
    PendingOf(s, x.entityId) ==> Baseline(s.Pending())[x.entityId] == RowOf(x)
  }

  /**
   * A merge suits a record when a change of its entity still on its way to the queue carries what the merge leaves,
   * and a record skipped because history showed it is still shown by the newest row.
   */
  predicate Fits(s: Race, baseline: map<string, Row>, x: StateData) {
    if EventOf(s, x.entityId) then s.event.value == RowOf(Installed(s.mem, x))
    else x.entityId in s.mem || Appends(s.mem, baseline, x) || Shows(s.Rows(), x)
  }

  predicate Careful(s: Race, a: Move)
    requires Enabled(s, a)
  {
    match a
    case Write(Changed(x)) => Clear(s, Normalised(x))
    case Merge =>
      var batch := s.seeding.batch;
      forall j | 0 <= j < |batch| && IsLast(batch, j) :: Fits(s, s.seeding.baseline, batch[j])
    case _ => true
  }

  predicate ConsistentMove(s: Race, a: Move)
    requires Enabled(s, a)
  {
    a.Merge? ==> Consistent(s.seeding.batch)
  }

  lemma MergeKeepsIff(s: Race, j: nat)
    requires s.seeding.Ready? && Consistent(s.seeding.batch) && j < |s.seeding.batch| && IsLast(s.seeding.batch, j)
    requires SafeAt(s, s.seeding.batch[j].entityId)
    requires forall id | id in s.seeding.baseline :: s.seeding.baseline[id].entityId == id
    ensures SafeAt(Take(s, Merge), s.seeding.batch[j].entityId) <==> Fits(s, s.seeding.baseline, s.seeding.batch[j])
  {
    var batch, x := s.seeding.batch, s.seeding.batch[j];
    var after := Take(s, Merge);
    MergeMemAt(s.mem, batch, j);
    PendingAfterMerge(s.mem, s.seeding.baseline, batch, j);
  }

  /** A consistent batch leaves one row of an entity waiting, its last record's, if it appends any. */
  lemma PendingAfterMerge(live: Mirror, base: map<string, Row>, batch: seq<StateData>, j: nat)
    requires Consistent(batch) && j < |batch| && IsLast(batch, j)
    ensures var p := Baseline(MergeRows(live, base, batch)); var id := batch[j].entityId;
            if Appends(live, base, batch[j]) then id in p && p[id] == RowOf(batch[j]) else id !in p
  {
    var more, id := MergeRows(live, base, batch), batch[j].entityId;
    BaselineIds(more);
    if Appends(live, base, batch[j]) {
      AppendedRow(live, base, batch, j);
      BaselineAppend([], more, id);
      assert [] + more == more;
    }
    if id in Baseline(more) { OnlyItsRow(live, base, batch, j, Baseline(more)[id]); }
  }

  /** An entity the batch does not have leaves the mirror. */
  lemma MergeDropsOthers(s: Race, id: string)
    requires s.seeding.Ready?
    requires var batch := s.seeding.batch; forall j | 0 <= j < |batch| && IsLast(batch, j) :: batch[j].entityId != id
    ensures SafeAt(Take(s, Merge), id)
  {
    if id in MergeMem(s.mem, s.seeding.batch) { var j := MergeMemOnly(s.mem, s.seeding.batch, id); }
  }

  lemma WriteKeepsIff(s: Race, x: StateData, id: string)
    requires Enabled(s, Write(Changed(x))) && SafeAt(s, id)
    ensures SafeAt(Take(s, Write(Changed(x))), id) <==> (x.entityId == id ==> Clear(s, Normalised(x)))
  {
  }

  /** Enqueueing, committing, looking, reading and removing keep safety whatever happens around them. */
  lemma OtherMovesKeep(s: Race, a: Move, id: string)
    requires Enabled(s, a) && !a.Merge? && !(a.Write? && a.change.Changed?) && SafeAt(s, id)
    ensures SafeAt(Take(s, a), id)
  {
    match a
    case AppendOne => AppendKeeps(s, id);
    case Enqueue =>
      BaselineAppend(s.Rows(), [s.event.value], id);
      assert Take(s, Enqueue).Rows() == s.Rows() + [s.event.value];
    case Committed(n) => assert Take(s, a).Rows() == s.Rows();
    case _ =>
  }

  lemma AppendKeeps(s: Race, id: string)
    requires Enabled(s, AppendOne) && SafeAt(s, id)
    ensures SafeAt(Take(s, AppendOne), id)
  {
    var rows := s.seeding.rows;
    if rows != [] {
      assert rows == [rows[0]] + rows[1..];
      BaselineCons(rows[0], rows[1..], id);
      BaselineSnoc(s.Rows(), rows[0]);
      assert Take(s, AppendOne).Rows() == s.Rows() + [rows[0]];
    }
  }

  lemma BaselineSnoc(rows: seq<Row>, r: Row)
    ensures Baseline(rows + [r]) == Baseline(rows)[r.entityId := r]
  {
    assert (rows + [r])[..|rows|] == rows;
  }

  lemma {:induction false} BaselineCons(r: Row, rest: seq<Row>, id: string)
    ensures id in Baseline([r] + rest) <==> id in Baseline(rest) || r.entityId == id
    ensures id in Baseline(rest) ==> Baseline([r] + rest)[id] == Baseline(rest)[id]
    ensures id !in Baseline(rest) && r.entityId == id ==> Baseline([r] + rest)[id] == r
  {
    if rest == [] {
      assert [r] + rest == [r] && [r][..0] == [];
    } else {
      var last, front := rest[|rest| - 1], rest[..|rest| - 1];
      assert [r] + rest == ([r] + front) + [last] && rest == front + [last];
      BaselineCons(r, front, id);
      BaselineSnoc([r] + front, last);
      BaselineSnoc(front, last);
    }
  }

  /** Rows a seed compares with are filed under their own entities. */
  ghost predicate BaselineSound(s: Race) {
    s.seeding.Ready? ==> forall id | id in s.seeding.baseline :: s.seeding.baseline[id].entityId == id
  }

  lemma BaselineStaysSound(s: Race, a: Move)
    requires Enabled(s, a) && BaselineSound(s)
    ensures BaselineSound(Take(s, a))
  {
    BaselineIds(s.history);
  }

  /** From a safe state a move of a consistent seed or of an event leads to a safe state exactly when it is careful. */
  lemma MoveKeepsSafeIff(s: Race, a: Move)
    requires Enabled(s, a) && Safe(s) && BaselineSound(s) && ConsistentMove(s, a)
    ensures Safe(Take(s, a)) <==> Careful(s, a)
  {
    if a.Merge? {
      MergeKeepsSafeIff(s);
    } else if a.Write? && a.change.Changed? {
      forall id ensures SafeAt(Take(s, a), id) <==> (a.change.newState.entityId == id ==> Careful(s, a)) {
        assert SafeAt(s, id);
        WriteKeepsIff(s, a.change.newState, id);
      }
      assert Safe(Take(s, a)) ==> SafeAt(Take(s, a), a.change.newState.entityId);
    } else {
      forall id ensures SafeAt(Take(s, a), id) {
        assert SafeAt(s, id);
        OtherMovesKeep(s, a, id);
      }
    }
  }

  lemma MergeKeepsSafeIff(s: Race)
    requires s.seeding.Ready? && Safe(s) && BaselineSound(s) && Consistent(s.seeding.batch)
    ensures Safe(Take(s, Merge)) <==> Careful(s, Merge)
  {
    var batch := s.seeding.batch;
    forall j: nat | j < |batch| && IsLast(batch, j)
      ensures SafeAt(Take(s, Merge), batch[j].entityId) <==> Fits(s, s.seeding.baseline, batch[j])
    {
      assert SafeAt(s, batch[j].entityId);
      MergeKeepsIff(s, j);
    }
    if Careful(s, Merge) {
      forall id ensures SafeAt(Take(s, Merge), id) {
        if j: nat :| j < |batch| && IsLast(batch, j) && batch[j].entityId == id {
          assert Fits(s, s.seeding.baseline, batch[j]);
        } else {
          MergeDropsOthers(s, id);
        }
      }
    }
  }

  // ---------- Whole runs ----------

  /** Every batch merged is consistent, and every merge and every change is careful. */
  predicate CarefulRun(s: Race, moves: seq<Move>) {
    moves == [] ||
    var rest, a := moves[..|moves| - 1], moves[|moves| - 1];
    CarefulRun(s, rest) &&
    (Enabled(TakeAll(s, rest), a) ==> ConsistentMove(TakeAll(s, rest), a) && Careful(TakeAll(s, rest), a))
  }

  function Restarted(history: seq<Row>): Race {
    Race(map[], [], history, Resting, None)
  }

  /**
   * Every careful run from a restart stays safe, so the mirror and the newest rows agree whenever nothing is on its
   * way.
   */
  lemma {:induction false} CarefulRunStaysSafe(history: seq<Row>, moves: seq<Move>)
    requires CarefulRun(Restarted(history), moves)
    ensures var t := TakeAll(Restarted(history), moves);
            && Safe(t) && BaselineSound(t)
            && (t.Pending() == [] && t.event.None? ==> Mirrors(t.mem, t.Rows()))
  {
    var t := TakeAll(Restarted(history), moves);
    if moves != [] {
      var rest, a := moves[..|moves| - 1], moves[|moves| - 1];
      var before := TakeAll(Restarted(history), rest);
      CarefulRunStaysSafe(history, rest);
      if Enabled(before, a) {
        MoveKeepsSafeIff(before, a);
        BaselineStaysSound(before, a);
      }
    }
    if t.Pending() == [] && t.event.None? { QuietMeansMirrors(t); }
  }

  // ---------- Safety is exactly that no way of finishing disagrees ----------

  /** What the rows come to when the event's row is enqueued after k of the seed's. */
  function Finished(s: Race, k: nat): seq<Row>
    requires k <= |s.Pending()|
  {
    s.Rows() + s.Pending()[..k] + s.Event() + s.Pending()[k..]
  }

  function Times(a: Move, n: nat): seq<Move> {
    seq(n, _ => a)
  }

  function FinishingTurns(s: Race, k: nat): seq<Move>
    requires k <= |s.Pending()|
  {
    var enq := if s.event.Some? then [Enqueue] else [];
    Times(AppendOne, k) + enq + Times(AppendOne, |s.Pending()| - k)
  }

  function FinishingMoves(s: Race, k: nat): seq<Move>
    requires k <= |s.Pending()|
  {
    if s.seeding.Appending? then FinishingTurns(s, k) + [AppendOne] else FinishingTurns(s, k)
  }

  /** After n turns of the seeding goroutine. */
  function Appended(s: Race, n: nat): Race
    requires n <= |s.Pending()|
  {
    if s.seeding.Appending? then s.(queue := s.queue + s.Pending()[..n], seeding := Appending(s.Pending()[n..])) else s
  }

  lemma {:induction false} AppendMany(s: Race, moves: seq<Move>, n: nat)
    requires n <= |TakeAll(s, moves).Pending()|
    ensures TakeAll(s, moves + Times(AppendOne, n)) == Appended(TakeAll(s, moves), n)
  {
    var t := TakeAll(s, moves);
    if n == 0 {
      assert moves + Times(AppendOne, 0) == moves;
      assert t.seeding.Appending? ==> t.queue + t.Pending()[..0] == t.queue && t.Pending()[0..] == t.Pending();
    } else {
      AppendMany(s, moves, n - 1);
      TakeSnoc(s, moves + Times(AppendOne, n - 1), AppendOne);
      assert moves + Times(AppendOne, n) == moves + Times(AppendOne, n - 1) + [AppendOne];
      AppendedOne(t, n - 1);
    }
  }

  lemma AppendedOne(s: Race, n: nat)
    requires n < |s.Pending()|
    ensures Appended(s, n + 1) == Take(Appended(s, n), AppendOne)
  {
    var p := s.Pending();
    assert p[n..][0] == p[n] && p[n..][1..] == p[n + 1..];
    assert s.queue + p[..n + 1] == s.queue + p[..n] + [p[n]];
  }

  function Enqueued(s: Race): Race {
    s.(queue := s.queue + s.Event(), event := None)
  }

  function AllFinished(s: Race, k: nat): Race
    requires k <= |s.Pending()|
  {
    s.(queue := s.queue + s.Pending()[..k] + s.Event() + s.Pending()[k..], seeding := Resting, event := None)
  }

  /** The goroutines take their turns in that order. */
  lemma FinishingRun(s: Race, k: nat)
    requires k <= |s.Pending()| && !s.seeding.Reading? && !s.seeding.Ready?
    ensures TakeAll(s, FinishingMoves(s, k)) == AllFinished(s, k)
  {
    Turns(s, k);
    var last := Appended(Enqueued(Appended(s, k)), |s.Pending()| - k);
    if s.seeding.Appending? {
      LastTurn(s, k);
      AppendSnoc(s, FinishingTurns(s, k), last);
    } else {
      NothingPending(s, k);
    }
  }

  lemma AppendSnoc(s: Race, moves: seq<Move>, t: Race)
    requires TakeAll(s, moves) == t && t.seeding.Appending?
    ensures TakeAll(s, moves + [AppendOne]) == Take(t, AppendOne)
  {
    TakeSnoc(s, moves, AppendOne);
  }

  lemma FinishedRows(s: Race, k: nat)
    requires k <= |s.Pending()|
    ensures AllFinished(s, k).Rows() == Finished(s, k)
  {
    Regroup(s.history, s.queue, s.Pending()[..k], s.Event(), s.Pending()[k..]);
  }

  /** Taking those turns leaves the goroutines idle, the mirror as it was, and exactly those rows. */
  lemma FinishingLeaves(s: Race, k: nat)
    requires k <= |s.Pending()| && !s.seeding.Reading? && !s.seeding.Ready?
    ensures var t := TakeAll(s, FinishingMoves(s, k));
            t.mem == s.mem && t.seeding.Resting? && t.event.None? && t.Rows() == Finished(s, k)
  {
    FinishingRun(s, k);
    FinishedRows(s, k);
  }

  lemma NothingPending(s: Race, k: nat)
    requires k <= |s.Pending()| && s.seeding.Resting?
    ensures Appended(Enqueued(Appended(s, k)), |s.Pending()| - k) == AllFinished(s, k)
  {
    assert s.queue + [] + s.Event() + [] == s.queue + s.Event();
  }

  lemma Regroup(h: seq<Row>, q: seq<Row>, a: seq<Row>, b: seq<Row>, c: seq<Row>)
    ensures h + (q + a + b + c) == h + q + a + b + c
  {
  }

  lemma FirstTurns(s: Race, k: nat)
    requires k <= |s.Pending()|
    ensures TakeAll(s, Times(AppendOne, k)) == Appended(s, k)
    ensures Enqueued(Appended(s, k)).Pending() == s.Pending()[k..] && Appended(s, k).event == s.event
  {
    AppendMany(s, [], k);
    assert [] + Times(AppendOne, k) == Times(AppendOne, k);
  }

  lemma Turns(s: Race, k: nat)
    requires k <= |s.Pending()|
    ensures |Enqueued(Appended(s, k)).Pending()| == |s.Pending()| - k
    ensures TakeAll(s, FinishingTurns(s, k)) == Appended(Enqueued(Appended(s, k)), |s.Pending()| - k)
  {
    var first, enq := Times(AppendOne, k), if s.event.Some? then [Enqueue] else [];
    FirstTurns(s, k);
    EnqueueIf(s, first, enq);
    AppendMany(s, first + enq, |s.Pending()| - k);
  }

  lemma LastTurn(s: Race, k: nat)
    requires k <= |s.Pending()| && s.seeding.Appending?
    ensures Take(Appended(Enqueued(Appended(s, k)), |s.Pending()| - k), AppendOne) == AllFinished(s, k)
  {
    var n := |s.Pending()|;
    assert s.Pending()[k..][..n - k] == s.Pending()[k..];
  }

  lemma EnqueueIf(s: Race, moves: seq<Move>, enq: seq<Move>)
    requires var t := TakeAll(s, moves); enq == if t.event.Some? then [Enqueue] else []
    ensures var t := TakeAll(s, moves);
            TakeAll(s, moves + enq) == Enqueued(t)
  {
    if enq == [] {
      assert moves + [] == moves && TakeAll(s, moves).queue + [] == TakeAll(s, moves).queue;
    } else {
      TakeSnoc(s, moves, Enqueue);
    }
  }

  /** An entity is safe exactly when, however the goroutines finish, its newest row carries what the mirror holds. */
  lemma SafeIffEveryFinishAgrees(s: Race, id: string)
    requires id in s.mem && s.mem[id].entityId == id
    ensures SafeAt(s, id) <==> forall k: nat | k <= |s.Pending()| :: Shows(Finished(s, k), s.mem[id])
  {
    var p, e, n := s.Pending(), s.Event(), |s.Pending()|;
    if SafeAt(s, id) {
      forall k: nat | k <= n ensures Shows(Finished(s, k), s.mem[id]) { FinishedShows(s, id, k); }
    }
    if forall k: nat | k <= n :: Shows(Finished(s, k), s.mem[id]) {
      assert Shows(Finished(s, 0), s.mem[id]) && Shows(Finished(s, n), s.mem[id]);
      assert Finished(s, 0) == s.Rows() + e + p && Finished(s, n) == s.Rows() + p + e;
      Newest(s.Rows() + e, p, id);
      Newest(s.Rows() + p, e, id);
      Newest(s.Rows(), p, id);
      EventBaseline(s);
    }
  }

  lemma {:induction false} Newest(rows: seq<Row>, more: seq<Row>, id: string)
    ensures id in Baseline(rows + more) <==> id in Baseline(rows) || id in Baseline(more)
    ensures id in Baseline(more) ==> Baseline(rows + more)[id] == Baseline(more)[id]
    ensures id !in Baseline(more) && id in Baseline(rows) ==> Baseline(rows + more)[id] == Baseline(rows)[id]
  {
    if more == [] {
      assert rows + more == rows;
    } else {
      var last, front := more[|more| - 1], more[..|more| - 1];
      assert rows + more == (rows + front) + [last] && more == front + [last];
      Newest(rows, front, id);
      BaselineSnoc(rows + front, last);
      BaselineSnoc(front, last);
    }
  }

  lemma EventBaseline(s: Race)
    ensures Baseline(s.Event()) == if s.event.Some? then map[s.event.value.entityId := s.event.value] else map[]
  {
    if s.event.Some? { assert [s.event.value][..0] == []; }
  }

  lemma FinishedShows(s: Race, id: string, k: nat)
    requires id in s.mem && SafeAt(s, id) && k <= |s.Pending()|
    ensures Shows(Finished(s, k), s.mem[id])
  {
    var p, e := s.Pending(), s.Event();
    assert p == p[..k] + p[k..];
    Newest(p[..k], p[k..], id);
    EventBaseline(s);
    Newest(s.Rows() + p[..k] + e, p[k..], id);
    Newest(s.Rows() + p[..k], e, id);
    Newest(s.Rows(), p[..k], id);
  }

  // ---------- Seeds nothing interferes with ----------

  /** A merge no event overlaps is careful, if what a cold seed read is not outdated by a queued row. */
  lemma SerialMergeIsCareful(s: Race)
    requires s.seeding.Ready? && s.event.None?
    requires var t := Store(s.mem, s.queue, s.history);
             s.seeding.baseline == SeedBaseline(t) && ColdFits(t, s.seeding.batch)
    ensures Careful(s, Merge)
  {
    var batch := s.seeding.batch;
    forall j | 0 <= j < |batch| && IsLast(batch, j) ensures Fits(s, s.seeding.baseline, batch[j]) {
      BaselineIds(s.history);
    }
  }

  function SeedMoves(s: Race, states: seq<StateData>): seq<Move> {
    var read := if s.mem == map[] then [Look(states), Read] else [Look(states)];
    if states == [] then [Look(states)]
    else
      var t := Store(s.mem, s.queue, s.history);
      read + [Merge] + Times(AppendOne, |MergeRows(s.mem, SeedBaseline(t), NormalisedAll(states))|) + [AppendOne]
  }

  /** A seed whose moves nothing comes between is the tracker's seed taken as one step. */
  lemma SerialSeed(s: Race, states: seq<StateData>)
    requires s.seeding.Resting?
    ensures var t := Step(Store(s.mem, s.queue, s.history), Seed(states));
            TakeAll(s, SeedMoves(s, states)) == s.(mem := t.mem, queue := t.queue)
  {
    TakeSnoc(s, [], Look(states));
    assert [] + [Look(states)] == [Look(states)];
    if states != [] {
      var read := if s.mem == map[] then [Look(states), Read] else [Look(states)];
      ReadyToMerge(s, states);
      TakeSnoc(s, read, Merge);
      var t := TakeAll(s, read + [Merge]);
      var n := |MergeRows(s.mem, TakeAll(s, read).seeding.baseline, NormalisedAll(states))|;
      AppendMany(s, read + [Merge], n);
      TakeSnoc(s, read + [Merge] + Times(AppendOne, n), AppendOne);
      assert t.Pending()[..n] == t.Pending() && t.Pending()[n..] == [];
    }
  }

  lemma ReadyToMerge(s: Race, states: seq<StateData>)
    requires s.seeding.Resting? && states != []
    ensures var read := if s.mem == map[] then [Look(states), Read] else [Look(states)];
            TakeAll(s, read)
            == s.(seeding := Ready(NormalisedAll(states), SeedBaseline(Store(s.mem, s.queue, s.history))))
  {
    TakeSnoc(s, [], Look(states));
    assert [] + [Look(states)] == [Look(states)];
    TakeSnoc(s, [Look(states)], Read);
    assert [Look(states)] + [Read] == [Look(states), Read];
  }

  function ChangeMoves(change: Change): seq<Move> {
    if change.Changed? then [Write(change), Enqueue] else [Write(change)]
  }

  /** So is a change the tracker's, */
  lemma SerialChange(s: Race, change: Change)
    requires s.event.None?
    ensures var t := Step(Store(s.mem, s.queue, s.history), Apply(change));
            TakeAll(s, ChangeMoves(change)) == s.(mem := t.mem, queue := t.queue)
  {
    TakeSnoc(s, [], Write(change));
    assert [] + [Write(change)] == [Write(change)];
    if change.Changed? {
      TakeSnoc(s, [Write(change)], Enqueue);
      assert [Write(change)] + [Enqueue] == [Write(change), Enqueue];
    }
  }

  /** and a commit, which is one move in any case. */
  lemma SerialCommit(s: Race, n: nat)
    ensures var t := Step(Store(s.mem, s.queue, s.history), Commit(n));
            TakeAll(s, [Committed(n)]) == s.(queue := t.queue, history := t.history)
  {
    TakeSnoc(s, [], Committed(n));
    assert [] + [Committed(n)] == [Committed(n)];
  }

  // ---------- A change that overtakes a seed's row ----------

  const OFF: StateData := StateData("light.a", "off", "{}", At(1))
  const ON: StateData := StateData("light.a", "on", "{}", At(2))
  const LATE: StateData := StateData("light.a", "off", "{}", At(3))

  const BEFORE: Race := Race(map["light.a" := OFF], [], [RowOf(OFF)], Resting, None)

  const LOOKED: Race := BEFORE.(seeding := Ready([ON], map[]))
  const MERGED: Race := BEFORE.(mem := map["light.a" := ON], seeding := Appending([RowOf(ON)]))
  const WRITTEN: Race := MERGED.(mem := map["light.a" := LATE], event := Some(RowOf(LATE)))
  const QUEUED: Race := WRITTEN.(queue := [RowOf(LATE)], event := None)
  const ENDED: Race := QUEUED.(queue := [RowOf(LATE), RowOf(ON)], seeding := Appending([]))

  /**
   * Between a re-seed's merge and its row a change arrives: nothing is left on its way, and history ends with the
   * older value.
   */
  lemma OvertakenRowEndsHistory()
    ensures Safe(BEFORE)
    ensures Enabled(BEFORE, Look([ON])) && Take(BEFORE, Look([ON])) == LOOKED
    ensures Enabled(LOOKED, Merge) && Take(LOOKED, Merge) == MERGED
    ensures Enabled(MERGED, Write(Changed(LATE))) && Take(MERGED, Write(Changed(LATE))) == WRITTEN
    ensures !Careful(MERGED, Write(Changed(LATE)))
    ensures Enabled(WRITTEN, Enqueue) && Take(WRITTEN, Enqueue) == QUEUED
    ensures Enabled(QUEUED, AppendOne) && Take(QUEUED, AppendOne) == ENDED
    ensures ENDED.Pending() == [] && ENDED.event.None? && !Mirrors(ENDED.mem, ENDED.Rows())
  {
    BeforeIsSafe();
    assert NormalisedAll([ON]) == [ON] && "light.a" in BEFORE.mem;
    OvertakingMerge();
    OvertakingChange();
    OvertakenRows();
  }

  lemma BeforeIsSafe()
    ensures Safe(BEFORE)
  {
    assert [RowOf(OFF)][..0] == [] && BEFORE.Rows() == [RowOf(OFF)];
    QuietMeansMirrors(BEFORE);
  }

  lemma OvertakingMerge()
    ensures Take(LOOKED, Merge) == MERGED
  {
    assert [ON][..0] == [] && OFF.state != ON.state;
    assert MergeMem(LOOKED.mem, []) == map[] && MergeRows(LOOKED.mem, map[], []) == [];
    assert MergeMem(LOOKED.mem, [ON]) == map["light.a" := ON];
    assert MergeRows(LOOKED.mem, map[], [ON]) == [RowOf(ON)];
  }

  lemma OvertakingChange()
    ensures Take(MERGED, Write(Changed(LATE))) == WRITTEN && !Clear(MERGED, Normalised(LATE))
    ensures Take(WRITTEN, Enqueue) == QUEUED && Take(QUEUED, AppendOne) == ENDED
  {
    assert [RowOf(ON)][..0] == [] && [RowOf(ON)][1..] == [] && LATE.state != ON.state;
    assert MERGED.mem["light.a" := LATE] == map["light.a" := LATE];
    assert [] + [RowOf(LATE)] == [RowOf(LATE)] && [RowOf(LATE)] + [RowOf(ON)] == [RowOf(LATE), RowOf(ON)];
  }

  lemma OvertakenRows()
    ensures !Mirrors(ENDED.mem, ENDED.Rows())
  {
    BaselineSnoc([RowOf(OFF), RowOf(LATE)], RowOf(ON));
    assert ENDED.Rows() == [RowOf(OFF), RowOf(LATE)] + [RowOf(ON)];
    assert "light.a" in ENDED.mem && LATE.state != ON.state;
  }
}
