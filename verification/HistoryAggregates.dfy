// Aggregates over an entity's recorded history: how long it was in a state, and
// how often it changed, since a given instant.
module HistoryAggregates {
  import opened Wrappers

  // Instants are nanoseconds since the epoch.
  const SECOND: int := 1_000_000_000

  /** The second an instant falls in, which is all the text comparison of the queries sees of it. */
  function SecondOf(t: int): int {
    t / SECOND
  }

  /** One recorded state at one instant. */
  datatype Point = Point(state: string, at: int)

  ghost predicate Ascending(points: seq<Point>) {
    forall i, j | 0 <= i < j < |points| :: points[i].at <= points[j].at
  }

  /**
   * What historyPoints returns: the opening state ("" when unknown), the changes inside the window, and whether it
   * was known.
   */
  datatype Timeline = Timeline(baseline: string, points: seq<Point>, complete: bool)

  // ---------- The step function ----------

  /** The state in force at t: that of the newest point at or before t, else the opening state. */
  function StateAt(baseline: string, points: seq<Point>, t: int): string {
    if points == [] then baseline
    else
      var n := |points| - 1;
      if points[n].at <= t then points[n].state else StateAt(baseline, points[..n], t)
  }

  /** How many instants in [lo, hi) the step function spends in state. */
  function Measure(baseline: string, points: seq<Point>, state: string, lo: int, hi: int): (m: nat)
    decreases hi - lo
  {
    if hi <= lo then 0
    else Measure(baseline, points, state, lo, hi - 1) + if StateAt(baseline, points, hi - 1) == state then 1 else 0
  }

  // ---------- The queries ----------

  /** The rows of one entity, in the queries' order, split at the second since falls in. */
  function HistoryPoints(rows: seq<Point>, since: int): Timeline {
    if rows == [] then Timeline("", [], false)
    else
      var n := |rows| - 1;
      var before, row := HistoryPoints(rows[..n], since), rows[n];
      if SecondOf(row.at) < SecondOf(since) then Timeline(row.state, before.points, true)
      else before.(points := before.points + [Clamped(row, since)])
  }

  function Clamped(row: Point, since: int): Point {
    if row.at < since then row.(at := since) else row
  }

  /** The queries as the tracker runs them: one row for the opening state, then a loop over the window. */
  method ReadHistory(rows: seq<Point>, since: int) returns (t: Timeline)
    requires Ascending(rows)
    ensures t == HistoryPoints(rows, since)
  {
    t := Timeline("", [], false);
    var opening := 0;
    while opening < |rows| && SecondOf(rows[opening].at) < SecondOf(since)
      invariant opening <= |rows| && t == HistoryPoints(rows[..opening], since) && t.points == []
    {
      OneMoreRow(rows, since, opening);
      t := Timeline(rows[opening].state, [], true);
      opening := opening + 1;
    }
    for i := opening to |rows|
      invariant t == HistoryPoints(rows[..i], since)
    {
      OneMoreRow(rows, since, i);
      t := t.(points := t.points + [if rows[i].at < since then rows[i].(at := since) else rows[i]]);
    }
    assert rows[..|rows|] == rows;
  }

  lemma OneMoreRow(rows: seq<Point>, since: int, i: nat)
    requires i < |rows|
    ensures var before := HistoryPoints(rows[..i], since);
            HistoryPoints(rows[..i + 1], since) ==
            if SecondOf(rows[i].at) < SecondOf(since) then Timeline(rows[i].state, before.points, true)
            else before.(points := before.points + [Clamped(rows[i], since)])
  {
    assert rows[..i + 1][..i] == rows[..i];
  }

  /** The window reaches now, or a later point when the clock lags behind the rows. */
  function WindowEnd(points: seq<Point>, now: int): int {
    if points != [] && points[|points| - 1].at > now then points[|points| - 1].at else now
  }

  method DurationInState(t: Timeline, state: string, since: int, now: int) returns (total: int)
    requires Ascending(t.points) && forall p | p in t.points :: since <= p.at
    ensures total == Measure(t.baseline, t.points, state, since, WindowEnd(t.points, now))
  {
    total := 0;
    var current, at := t.baseline, since;
    for i := 0 to |t.points|
      invariant at == if i == 0 then since else t.points[i - 1].at
      invariant current == if i == 0 then t.baseline else t.points[i - 1].state
      invariant total == Measure(t.baseline, t.points, state, since, at)
    {
      var p := t.points[i];
      MeasureConstant(t, i, state, since, at, p.at);
      if current == state {
        total := total + (p.at - at);
      }
      current, at := p.state, p.at;
    }
    if now > at {
      MeasureConstant(t, |t.points|, state, since, at, now);
    }
    if current == state {
      if now > at {
        total := total + (now - at);
      }
    }
  }

  /** Between two consecutive points the step function is constant. */
  lemma {:induction false} MeasureConstant(t: Timeline, i: nat, state: string, since: int, lo: int, hi: int)
    requires Ascending(t.points) && i <= |t.points| && since <= lo <= hi
    requires i > 0 ==> t.points[i - 1].at <= lo
    requires i < |t.points| ==> hi <= t.points[i].at
    ensures Measure(t.baseline, t.points, state, since, hi) == Measure(t.baseline, t.points, state, since, lo)
            + if (if i == 0 then t.baseline else t.points[i - 1].state) == state then hi - lo else 0
    decreases hi - lo
  {
    if lo < hi {
      MeasureConstant(t, i, state, since, lo, hi - 1);
      StateBetween(t.baseline, t.points, i, hi - 1);
    }
  }

  lemma {:induction false} StateBetween(baseline: string, points: seq<Point>, i: nat, x: int)
    requires Ascending(points) && i <= |points|
    requires i > 0 ==> points[i - 1].at <= x
    requires i < |points| ==> x < points[i].at
    ensures StateAt(baseline, points, x) == if i == 0 then baseline else points[i - 1].state
  {
    if i < |points| {
      StateBetween(baseline, points[..|points| - 1], i, x);
    }
  }

  /** The state in force at t is that of the newest point at or before t, the opening state before all of them. */
  lemma {:induction false} StateAtIs(baseline: string, points: seq<Point>, t: int, k: nat)
    requires k <= |points| && (k > 0 ==> points[k - 1].at <= t)
    requires forall i | k <= i < |points| :: t < points[i].at
    ensures StateAt(baseline, points, t) == if k == 0 then baseline else points[k - 1].state
  {
    if k < |points| { StateAtIs(baseline, points[..|points| - 1], t, k); }
  }

  /** The instants of [lo, hi) at which the step function is in the state, */
  function InState(baseline: string, points: seq<Point>, state: string, lo: int, hi: int): set<int> {
    set x | lo <= x < hi && StateAt(baseline, points, x) == state
  }

  lemma OneMoreInstant(baseline: string, points: seq<Point>, state: string, lo: int, hi: int)
    requires lo < hi
    ensures InState(baseline, points, state, lo, hi) == InState(baseline, points, state, lo, hi - 1)
            + if StateAt(baseline, points, hi - 1) == state then {hi - 1} else {}
    ensures hi - 1 !in InState(baseline, points, state, lo, hi - 1)
  {
  }

  /** which the measure counts. */
  lemma {:induction false} MeasureCounts(baseline: string, points: seq<Point>, state: string, lo: int, hi: int)
    ensures Measure(baseline, points, state, lo, hi) == |InState(baseline, points, state, lo, hi)|
    decreases hi - lo
  {
    var all := InState(baseline, points, state, lo, hi);
    if lo < hi {
      MeasureCounts(baseline, points, state, lo, hi - 1);
      OneMoreInstant(baseline, points, state, lo, hi);
    } else {
      assert all == {};
    }
  }

  // ---------- The window against the whole history ----------

  /**
   * The window splits the rows where the second of since begins: the last row before it opens the window, every row
   * from there on is one of its points, none of them earlier than since.
   */
  lemma {:induction false} WindowSplits(rows: seq<Point>, since: int) returns (k: nat)
    requires Ascending(rows)
    ensures k <= |rows|
    ensures forall i | 0 <= i < |rows| :: i < k <==> rows[i].at / 1_000_000_000 < since / 1_000_000_000
    ensures var t := HistoryPoints(rows, since);
            && t.complete == (k > 0) && t.baseline == (if k > 0 then rows[k - 1].state else "")
            && |t.points| == |rows| - k
            && forall i | 0 <= i < |t.points| ::
                 t.points[i] == Point(rows[k + i].state, if rows[k + i].at < since then since else rows[k + i].at)
  {
    if rows == [] {
      k := 0;
    } else {
      var n := |rows| - 1;
      if SecondOf(rows[n].at) < SecondOf(since) {
        AllBefore(rows, since);
        NoneLater(rows, since);
        k := n + 1;
      } else {
        k := WindowSplits(rows[..n], since);
        assert forall i | 0 <= i < n :: rows[..n][i] == rows[i];
      }
    }
  }

  lemma NoneLater(rows: seq<Point>, since: int)
    requires Ascending(rows) && rows != [] && SecondOf(rows[|rows| - 1].at) < SecondOf(since)
    ensures forall i | 0 <= i < |rows| :: rows[i].at / 1_000_000_000 < since / 1_000_000_000
  {
  }

  /** Every point of a window lies inside it, in order. */
  lemma {:induction false} PointsInWindow(rows: seq<Point>, since: int)
    requires Ascending(rows)
    ensures var t := HistoryPoints(rows, since);
            && Ascending(t.points)
            && (forall p | p in t.points :: since <= p.at)
            && (rows != [] ==> forall p | p in t.points :: p.at <= since || p.at <= rows[|rows| - 1].at)
  {
    if rows != [] { PointsInWindow(rows[..|rows| - 1], since); }
  }

  /** From since on, the window shows exactly what the whole history shows. */
  lemma {:induction false} WindowShowsHistory(rows: seq<Point>, since: int, x: int)
    requires Ascending(rows) && since <= x
    ensures var t := HistoryPoints(rows, since); StateAt(t.baseline, t.points, x) == StateAt("", rows, x)
  {
    if rows != [] {
      var n := |rows| - 1;
      var before, t := HistoryPoints(rows[..n], since), HistoryPoints(rows, since);
      WindowShowsHistory(rows[..n], since, x);
      if SecondOf(rows[n].at) < SecondOf(since) {
        AllBefore(rows, since);
      } else {
        assert t.points[..|t.points| - 1] == before.points;
      }
    }
  }

  lemma {:induction false} AllBefore(rows: seq<Point>, since: int)
    requires Ascending(rows) && rows != [] && SecondOf(rows[|rows| - 1].at) < SecondOf(since)
    ensures HistoryPoints(rows, since) == Timeline(rows[|rows| - 1].state, [], true)
  {
    if |rows| > 1 { AllBefore(rows[..|rows| - 1], since); }
  }

  lemma {:induction false} SameStatesSameMeasure(b: string, p: seq<Point>, c: string, q: seq<Point>, state: string,
      lo: int, hi: int)
    requires forall x | lo <= x < hi :: StateAt(b, p, x) == StateAt(c, q, x)
    ensures Measure(b, p, state, lo, hi) == Measure(c, q, state, lo, hi)
    decreases hi - lo
  {
    if lo < hi { SameStatesSameMeasure(b, p, c, q, state, lo, hi - 1); }
  }

  lemma {:induction false} MeasureSplits(b: string, p: seq<Point>, state: string, lo: int, mid: int, hi: int)
    requires lo <= mid <= hi
    ensures Measure(b, p, state, lo, hi) == Measure(b, p, state, lo, mid) + Measure(b, p, state, mid, hi)
    decreases hi - mid
  {
    if mid < hi { MeasureSplits(b, p, state, lo, mid, hi - 1); }
  }

  /** What DurationInState answers for an entity's rows. */
  function Duration(rows: seq<Point>, state: string, since: int, now: int): nat {
    var t := HistoryPoints(rows, since);
    Measure(t.baseline, t.points, state, since, WindowEnd(t.points, now))
  }

  ghost predicate Recorded(rows: seq<Point>, now: int) {
    Ascending(rows) && forall i | 0 <= i < |rows| :: rows[i].at <= now
  }

  /** The answer is what the whole history measures from since on, up to now or to a row the clock has yet to reach. */
  lemma DurationReachesLastRow(rows: seq<Point>, state: string, since: int, now: int)
    requires Ascending(rows) && since <= now
    ensures Duration(rows, state, since, now)
            == Measure("", rows, state, since,
                       if rows != [] && rows[|rows| - 1].at > now then rows[|rows| - 1].at else now)
  {
    var t := HistoryPoints(rows, since);
    var end := WindowEnd(t.points, now);
    LastPointIsLastRow(rows, since, now);
    forall x | since <= x < end ensures StateAt(t.baseline, t.points, x) == StateAt("", rows, x) {
      WindowShowsHistory(rows, since, x);
    }
    SameStatesSameMeasure(t.baseline, t.points, "", rows, state, since, end);
  }

  lemma LastPointIsLastRow(rows: seq<Point>, since: int, now: int)
    requires Ascending(rows) && since <= now
    ensures WindowEnd(HistoryPoints(rows, since).points, now)
            == if rows != [] && rows[|rows| - 1].at > now then rows[|rows| - 1].at else now
  {
    if rows != [] && SecondOf(rows[|rows| - 1].at) < SecondOf(since) { AllBefore(rows, since); }
  }

  /** The answer is the measure of the instants in [since, now] the whole history spends in the state. */
  lemma DurationIsMeasure(rows: seq<Point>, state: string, since: int, now: int)
    requires Recorded(rows, now) && since <= now
    ensures Duration(rows, state, since, now) == Measure("", rows, state, since, now)
  {
    DurationReachesLastRow(rows, state, since, now);
  }

  /** The rows known at mid: a prefix of the ascending rows. */
  function Upto(rows: seq<Point>, mid: int): seq<Point> {
    if rows == [] || rows[|rows| - 1].at <= mid then rows else Upto(rows[..|rows| - 1], mid)
  }

  lemma {:induction false} UptoShows(rows: seq<Point>, mid: int, x: int)
    requires Ascending(rows)
    ensures Recorded(Upto(rows, mid), mid)
    ensures x <= mid ==> StateAt("", Upto(rows, mid), x) == StateAt("", rows, x)
  {
    if rows != [] && rows[|rows| - 1].at > mid { UptoShows(rows[..|rows| - 1], mid, x); }
  }

  /** Asking at mid about [since, mid] and now about [mid, now] adds up to asking about [since, now]. */
  lemma DurationIsAdditive(rows: seq<Point>, state: string, since: int, mid: int, now: int)
    requires Recorded(rows, now) && since <= mid <= now
    ensures Duration(rows, state, since, now) == Duration(Upto(rows, mid), state, since, mid)
            + Duration(rows, state, mid, now)
  {
    DurationIsMeasure(rows, state, since, now);
    DurationIsMeasure(rows, state, mid, now);
    MeasureSplits("", rows, state, since, mid, now);
    UptoShows(rows, mid, mid);
    DurationIsMeasure(Upto(rows, mid), state, since, mid);
    forall x | since <= x < mid ensures StateAt("", Upto(rows, mid), x) == StateAt("", rows, x) {
      UptoShows(rows, mid, x);
    }
    SameStatesSameMeasure("", Upto(rows, mid), "", rows, state, since, mid);
  }

  function TotalDuration(rows: seq<Point>, states: seq<string>, since: int, now: int): nat {
    if states == [] then 0
    else TotalDuration(rows, states[..|states| - 1], since, now) + Duration(rows, states[|states| - 1], since, now)
  }

  function TotalMeasure(rows: seq<Point>, states: seq<string>, lo: int, hi: int): nat {
    if states == [] then 0
    else TotalMeasure(rows, states[..|states| - 1], lo, hi) + Measure("", rows, states[|states| - 1], lo, hi)
  }

  lemma {:induction false} OneTick(rows: seq<Point>, states: seq<string>, lo: int, hi: int)
    requires NoDup(states) && lo < hi
    ensures TotalMeasure(rows, states, lo, hi)
            == TotalMeasure(rows, states, lo, hi - 1) + if StateAt("", rows, hi - 1) in states then 1 else 0
  {
    if states != [] {
      var rest, last := states[..|states| - 1], states[|states| - 1];
      assert states == rest + [last];
      OneTick(rows, rest, lo, hi);
    }
  }

  lemma {:induction false} TicksCount(rows: seq<Point>, states: seq<string>, lo: int, hi: int)
    requires NoDup(states) && lo <= hi
    requires forall x | lo <= x < hi :: StateAt("", rows, x) in states
    ensures TotalMeasure(rows, states, lo, hi) == hi - lo
    decreases hi - lo
  {
    if lo < hi {
      TicksCount(rows, states, lo, hi - 1);
      OneTick(rows, states, lo, hi);
    } else {
      NoTicks(rows, states, lo);
    }
  }

  lemma {:induction false} NoTicks(rows: seq<Point>, states: seq<string>, lo: int)
    ensures TotalMeasure(rows, states, lo, lo) == 0
  {
    if states != [] { NoTicks(rows, states[..|states| - 1], lo); }
  }

  lemma {:induction false} TotalIsMeasure(rows: seq<Point>, states: seq<string>, since: int, now: int)
    requires Recorded(rows, now) && since <= now
    ensures TotalDuration(rows, states, since, now) == TotalMeasure(rows, states, since, now)
  {
    if states != [] {
      TotalIsMeasure(rows, states[..|states| - 1], since, now);
      DurationIsMeasure(rows, states[|states| - 1], since, now);
    }
  }

  lemma {:induction false} StateIsRecorded(rows: seq<Point>, x: int)
    ensures StateAt("", rows, x) == "" || exists p | p in rows :: p.state == StateAt("", rows, x)
  {
    if rows != [] {
      var n := |rows| - 1;
      assert rows[n] in rows;
      StateIsRecorded(rows[..n], x);
    }
  }

  /** The durations of all states, the unknown opening stretch ("") included, fill the window. */
  lemma DurationsFillWindow(rows: seq<Point>, states: seq<string>, since: int, now: int)
    requires Recorded(rows, now) && since <= now && NoDup(states)
    requires "" in states && forall p | p in rows :: p.state in states
    ensures TotalDuration(rows, states, since, now) == now - since
  {
    TotalIsMeasure(rows, states, since, now);
    forall x | since <= x < now ensures StateAt("", rows, x) in states {
      StateIsRecorded(rows, x);
    }
    TicksCount(rows, states, since, now);
  }

  /** With the opening state unknown, the answer for a real state is a lower bound whatever that state was. */
  lemma {:induction false} UnknownOpeningIsLowerBound(t: Timeline, opening: string, state: string, lo: int, hi: int)
    requires t.baseline == "" && state != ""
    ensures Measure(t.baseline, t.points, state, lo, hi) <= Measure(opening, t.points, state, lo, hi)
    ensures opening != state ==>
              Measure(t.baseline, t.points, state, lo, hi) == Measure(opening, t.points, state, lo, hi)
    decreases hi - lo
  {
    if lo < hi {
      UnknownOpeningIsLowerBound(t, opening, state, lo, hi - 1);
      OpeningOnlyMattersFirst(t.points, "", opening, hi - 1);
    }
  }

  lemma {:induction false} OpeningOnlyMattersFirst(points: seq<Point>, b: string, c: string, x: int)
    ensures StateAt(b, points, x) == StateAt(c, points, x) || (StateAt(b, points, x) == b && StateAt(c, points, x) == c)
  {
    if points != [] { OpeningOnlyMattersFirst(points[..|points| - 1], b, c, x); }
  }

  /** complete is reported exactly when some row lies in an earlier second than since. */
  lemma {:induction false} CompleteIff(rows: seq<Point>, since: int)
    ensures HistoryPoints(rows, since).complete <==> exists p | p in rows :: SecondOf(p.at) < SecondOf(since)
    ensures !HistoryPoints(rows, since).complete ==> HistoryPoints(rows, since).baseline == ""
  {
    if rows != [] {
      CompleteIff(rows[..|rows| - 1], since);
      assert rows == rows[..|rows| - 1] + [rows[|rows| - 1]];
    }
  }

  // ---------- Counting transitions ----------

  /** Whether point i changes the state; the first one does when what it replaced is unknown. */
  predicate Transition(t: Timeline, i: nat)
    requires i < |t.points|
  {
    if i == 0 then !t.complete || t.points[0].state != t.baseline
    else t.points[i].state != t.points[i - 1].state
  }

  /** The states entered, in order. */
  function Entered(t: Timeline, n: nat): seq<string>
    requires n <= |t.points|
  {
    if n == 0 then []
    else if Transition(t, n - 1) then Entered(t, n - 1) + [t.points[n - 1].state]
    else Entered(t, n - 1)
  }

  lemma {:induction false} TransitionsAre(t: Timeline, n: nat) returns (at: seq<nat>)
    requires n <= |t.points|
    ensures |at| == |Entered(t, n)|
    ensures forall k | 0 <= k < |at| :: at[k] < n && Entered(t, n)[k] == t.points[at[k]].state
    ensures forall k, m | 0 <= k < m < |at| :: at[k] < at[m]
    ensures forall i: nat | i < n :: i in at <==> Transition(t, i)
  {
    if n == 0 {
      at := [];
    } else {
      at := TransitionsAre(t, n - 1);
      assert n - 1 !in at;
      if Transition(t, n - 1) { at := at + [n - 1]; }
    }
  }

  /**
   * A state is entered at exactly the points whose state differs from the one before, the opening state coming before
   * the first; with that unknown the first point enters its state whatever it is.
   */
  lemma EnteredAre(t: Timeline) returns (at: seq<nat>)
    ensures var entered := Entered(t, |t.points|);
            |at| == |entered| && forall k | 0 <= k < |at| :: at[k] < |t.points| && entered[k] == t.points[at[k]].state
    ensures forall k, m | 0 <= k < m < |at| :: at[k] < at[m]
    ensures forall i: nat | 0 < i < |t.points| :: i in at <==> t.points[i].state != t.points[i - 1].state
    ensures t.points != [] ==> (0 in at <==> (t.complete ==> t.points[0].state != t.baseline))
  {
    at := TransitionsAre(t, |t.points|);
  }

  /** How often state was entered, or any state at all for "". */
  function CountOf(entered: seq<string>, state: string): nat {
    if entered == [] then 0
    else
      var n := |entered| - 1;
      CountOf(entered[..n], state) + if state == "" || entered[n] == state then 1 else 0
  }

  /** Counting state by state adds up to counting them all. */
  lemma {:induction false} CountsAddUp(entered: seq<string>, state: string)
    ensures CountOf(entered, "") == |entered|
    ensures state != "" ==> CountOf(entered, state) == multiset(entered)[state]
  {
    if entered != [] {
      var n := |entered| - 1;
      CountsAddUp(entered[..n], state);
      assert entered == entered[..n] + [entered[n]];
    }
  }

  lemma CountSnoc(entered: seq<string>, s: string, state: string)
    ensures CountOf(entered + [s], state) == CountOf(entered, state) + if state == "" || s == state then 1 else 0
  {
    assert (entered + [s])[..|entered|] == entered;
  }

  method CountChanges(t: Timeline, state: string) returns (count: int)
    ensures count == CountOf(Entered(t, |t.points|), state)
  {
    count := 0;
    var previous := t.baseline;
    for i := 0 to |t.points|
      invariant previous == if i == 0 then t.baseline else t.points[i - 1].state
      invariant count == CountOf(Entered(t, i), state)
    {
      var p := t.points[i];
      var unknownStart := i == 0 && !t.complete;
      if p.state == previous && !unknownStart {
        continue;
      }
      CountSnoc(Entered(t, i), p.state, state);
      if state == "" || p.state == state {
        count := count + 1;
      }
      previous := p.state;
    }
  }

  /** Counted transitions really alternate: no state is entered twice in a row. */
  lemma {:induction false} EnteredAlternates(t: Timeline, n: nat)
    requires n <= |t.points|
    ensures forall i | 0 < i < |Entered(t, n)| :: Entered(t, n)[i] != Entered(t, n)[i - 1]
    ensures Entered(t, n) != [] ==> n > 0 && Entered(t, n)[|Entered(t, n)| - 1] == t.points[n - 1].state
    ensures Entered(t, n) == [] && n > 0 ==> t.points[n - 1].state == t.baseline && t.complete
  {
    if n > 0 { EnteredAlternates(t, n - 1); }
  }

  /** An attribute-only row repeats the state before it and counts for nothing. */
  lemma {:induction false} RepeatedRowCountsNothing(t: Timeline, i: nat, n: nat)
    requires i < n <= |t.points| && !Transition(t, i)
    ensures var without := t.(points := t.points[..i] + t.points[i + 1..]);
            Entered(without, n - 1) == Entered(t, n)
    decreases n
  {
    var without := t.(points := t.points[..i] + t.points[i + 1..]);
    if n == i + 1 {
      EnteredPrefix(t, without, i);
    } else {
      RepeatedRowCountsNothing(t, i, n - 1);
      assert without.points[n - 2] == t.points[n - 1];
      assert n - 2 > 0 && n - 2 != i ==> without.points[n - 3] == t.points[n - 2];
    }
  }

  lemma {:induction false} EnteredPrefix(t: Timeline, u: Timeline, n: nat)
    requires n <= |t.points| && n <= |u.points| && t.points[..n] == u.points[..n]
    requires t.baseline == u.baseline && t.complete == u.complete
    ensures Entered(t, n) == Entered(u, n)
  {
    if n > 0 {
      assert t.points[..n][n - 1] == u.points[..n][n - 1];
      assert n > 1 ==> t.points[..n][n - 2] == u.points[..n][n - 2];
      assert t.points[..n - 1] == t.points[..n][..n - 1] == u.points[..n][..n - 1] == u.points[..n - 1];
      EnteredPrefix(t, u, n - 1);
    }
  }
}
