// The state tracker: an authoritative in-memory mirror, and history rows that
// reach the database through a write-behind queue.
module Tracker {

  /** A last_updated stamp: an instant, or text that does not parse as one. */
  datatype Stamp = At(instant: int) | Unparseable(text: string)

  datatype StateData = StateData(entityId: string, state: string, attributes: string, lastUpdated: Stamp)

  /** A state_history row. */
  datatype Row = Row(entityId: string, state: string, attributes: string)

  /** The data of a state_changed event. */
  datatype Change = Undecodable | Removed(entityId: string) | Changed(newState: StateData)

  function AttrStr(attributes: string): string {
    if attributes == "" then "{}" else attributes
  }

  function Normalised(s: StateData): StateData {
    s.(attributes := AttrStr(s.attributes))
  }

  function NormalisedAll(batch: seq<StateData>): (r: seq<StateData>)
    ensures |r| == |batch|
  {
    seq(|batch|, i requires 0 <= i < |batch| => Normalised(batch[i]))
  }

  function RowOf(s: StateData): Row {
    Row(s.entityId, s.state, s.attributes)
  }

  predicate NewerThan(a: Stamp, b: Stamp) {
    a.At? && b.At? && a.instant > b.instant
  }

  // ---------- The state machine ----------

  type Mirror = map<string, StateData>

  /** The newest row of every entity that has one. */
  function Baseline(rows: seq<Row>): map<string, Row> {
    if rows == [] then map[]
    else Baseline(rows[..|rows| - 1])[rows[|rows| - 1].entityId := rows[|rows| - 1]]
  }

  /** The live entry survives a snapshot record that is older. */
  predicate Survives(live: Mirror, s: StateData) {
    s.entityId in live && NewerThan(live[s.entityId].lastUpdated, s.lastUpdated)
  }

  predicate Appends(live: Mirror, baseline: map<string, Row>, s: StateData) {
    && !Survives(live, s)
    && if s.entityId in live
       then live[s.entityId].state != s.state || live[s.entityId].attributes != s.attributes
       else s.entityId in baseline ==>
              baseline[s.entityId].state != s.state || baseline[s.entityId].attributes != s.attributes
  }

  function Installed(live: Mirror, s: StateData): StateData {
    if Survives(live, s) then live[s.entityId] else s
  }

  function MergeMem(live: Mirror, batch: seq<StateData>): Mirror {
    if batch == [] then map[]
    else
      var s := batch[|batch| - 1];
      MergeMem(live, batch[..|batch| - 1])[s.entityId := Installed(live, s)]
  }

  function MergeRows(live: Mirror, baseline: map<string, Row>, batch: seq<StateData>): seq<Row> {
    if batch == [] then []
    else
      var s := batch[|batch| - 1];
      MergeRows(live, baseline, batch[..|batch| - 1]) + if Appends(live, baseline, s) then [RowOf(s)] else []
  }

  datatype Store = Store(mem: Mirror, queue: seq<Row>, history: seq<Row>) {
    function Rows(): seq<Row> { history + queue }
  }

  /** What a seed compares against when the mirror itself holds nothing. */
  function SeedBaseline(t: Store): map<string, Row> {
    if t.mem == map[] then Baseline(t.history) else map[]
  }

  datatype Op = Seed(states: seq<StateData>) | Apply(change: Change) | Commit(n: nat)

  function Step(t: Store, op: Op): Store {
    match op
    case Seed(states) =>
      if states == [] then t
      else
        var batch := NormalisedAll(states);
        t.(mem := MergeMem(t.mem, batch), queue := t.queue + MergeRows(t.mem, SeedBaseline(t), batch))
    case Apply(Undecodable) => t
    case Apply(Removed(id)) => t.(mem := t.mem - {id})
    case Apply(Changed(s)) =>
      var ns := Normalised(s);
      t.(mem := t.mem[ns.entityId := ns], queue := t.queue + [RowOf(ns)])
    case Commit(n) =>
      var k := if n < |t.queue| then n else |t.queue|;
      t.(queue := t.queue[k..], history := t.history + t.queue[..k])
  }

  function Run(t: Store, ops: seq<Op>): Store {
    if ops == [] then t else Step(Run(t, ops[..|ops| - 1]), ops[|ops| - 1])
  }

  // ---------- The tracker ----------

  class Tracker {
    var mem: Mirror
    var queue: seq<Row>
    var history: seq<Row>

    ghost function View(): Store
      reads this
    {
      Store(mem, queue, history)
    }

    constructor (history: seq<Row>)
      ensures View() == Store(map[], [], history)
    {
      mem, queue, this.history := map[], [], history;
    }

    method Enqueue(row: Row)
      modifies `queue
      ensures queue == old(queue) + [row]
    {
      queue := queue + [row];
    }

    method HandleStateChanged(change: Change)
      modifies this
      ensures View() == Step(old(View()), Apply(change))
    {
      match change {
        case Undecodable =>
        case Removed(id) =>
          mem := mem - {id};
        case Changed(s) =>
          var ns := Normalised(s);
          mem := mem[ns.entityId := ns];
          Enqueue(RowOf(ns));
      }
    }

    /** The merge: one critical section, whatever the mirror holds by then. */
    method Merge(batch: seq<StateData>, baseline: map<string, Row>) returns (appends: seq<Row>)
      modifies `mem
      ensures mem == MergeMem(old(mem), batch)
      ensures appends == MergeRows(old(mem), baseline, batch)
    {
      var merged: Mirror := map[];
      appends := [];
      for i := 0 to |batch|
        invariant mem == old(mem)
        invariant merged == MergeMem(mem, batch[..i])
        invariant appends == MergeRows(mem, baseline, batch[..i])
      {
        assert batch[..i + 1][..i] == batch[..i];
        var s := batch[i];
        var isLive := s.entityId in mem;
        if isLive && NewerThan(mem[s.entityId].lastUpdated, s.lastUpdated) {
          merged := merged[s.entityId := mem[s.entityId]];
          continue;
        }
        merged := merged[s.entityId := s];
        if isLive {
          var live := mem[s.entityId];
          if live.state == s.state && live.attributes == s.attributes {
            continue;
          }
        } else if s.entityId in baseline && baseline[s.entityId].state == s.state
            && baseline[s.entityId].attributes == s.attributes {
          continue;
        }
        appends := appends + [RowOf(s)];
      }
      assert batch[..|batch|] == batch;
      mem := merged;
    }

    method HistoryBaseline() returns (baseline: map<string, Row>)
      ensures baseline == Baseline(history)
    {
      baseline := map[];
      for i := 0 to |history|
        invariant baseline == Baseline(history[..i])
      {
        assert history[..i + 1][..i] == history[..i];
        baseline := baseline[history[i].entityId := history[i]];
      }
      assert history[..|history|] == history;
    }

    method Seed(states: seq<StateData>)
      modifies this
      ensures View() == Step(old(View()), Op.Seed(states))
    {
      if states == [] {
        return;
      }
      var baseline: map<string, Row> := map[];
      if mem == map[] {
        baseline := HistoryBaseline();
      }
      var batch := states;
      for i := 0 to |batch|
        invariant |batch| == |states|
        invariant forall k | 0 <= k < |batch| :: batch[k] == if k < i then Normalised(states[k]) else states[k]
      {
        batch := batch[i := Normalised(batch[i])];
      }
      assert batch == NormalisedAll(states);
      var appends := Merge(batch, baseline);
      for i := 0 to |appends|
        invariant queue == old(queue) + appends[..i]
        invariant mem == MergeMem(old(mem), batch) && history == old(history)
      {
        Enqueue(appends[i]);
      }
      assert appends[..|appends|] == appends;
    }

    /** One wake-up of the writer: a prefix of the queue is committed in one transaction. */
    method CommitBatch(n: nat)
      modifies this
      ensures View() == Step(old(View()), Commit(n))
    {
      var k := if n < |queue| then n else |queue|;
      for i := 0 to k
        invariant k <= |old(queue)|
        invariant queue == old(queue)[i..] && history == old(history) + old(queue)[..i] && mem == old(mem)
      {
        history := history + [queue[0]];
        queue := queue[1..];
      }
    }

    method Perform(ops: seq<Op>)
      modifies this
      ensures View() == Run(old(View()), ops)
    {
      for i := 0 to |ops|
        invariant View() == Run(old(View()), ops[..i])
      {
        assert ops[..i + 1][..i] == ops[..i];
        match ops[i] {
          case Seed(states) => Seed(states);
          case Apply(change) => HandleStateChanged(change);
          case Commit(n) => CommitBatch(n);
        }
      }
      assert ops[..|ops|] == ops;
    }
  }

  // ---------- The mirror and the newest rows agree ----------

  /** Every mirrored entity's newest row carries exactly the mirror's state and attributes. */
  ghost predicate Mirrors(mem: Mirror, rows: seq<Row>) {
    forall id | id in mem :: mem[id].entityId == id && id in Baseline(rows) && Baseline(rows)[id] == RowOf(mem[id])
  }

  predicate SameValue(a: StateData, b: StateData) {
    a.state == b.state && a.attributes == b.attributes
  }

  predicate IsLast(batch: seq<StateData>, j: nat)
    requires j < |batch|
  {
    forall k | j < k < |batch| :: batch[k].entityId != batch[j].entityId
  }

  /** Some live entry is older than no part of a but newer than b. */
  predicate Outlasts(a: Stamp, b: Stamp) {
    b.At? && (a.Unparseable? || a.instant > b.instant)
  }

  /** Repeated ids are harmless: they agree in value, and the last is not older than the others. */
  predicate Consistent(batch: seq<StateData>) {
    forall i, j | 0 <= i < j < |batch| && batch[i].entityId == batch[j].entityId && IsLast(batch, j) ::
      SameValue(batch[i], batch[j]) && !Outlasts(batch[i].lastUpdated, batch[j].lastUpdated)
  }

  /**
   * Repeated ids survive a replay: nothing earlier would be installed over what the last record leaves, and differ
   * from it.
   */
  predicate Replayable(batch: seq<StateData>) {
    forall i, j | 0 <= i < j < |batch| && batch[i].entityId == batch[j].entityId && IsLast(batch, j) ::
      NewerThan(batch[j].lastUpdated, batch[i].lastUpdated)
      || (SameValue(batch[i], batch[j]) && !Outlasts(batch[i].lastUpdated, batch[j].lastUpdated))
  }

  lemma UniqueIdsAreConsistent(batch: seq<StateData>)
    requires forall i, j | 0 <= i < j < |batch| :: batch[i].entityId != batch[j].entityId
    ensures Consistent(batch) && Replayable(batch)
  {
  }

  lemma {:induction false} LastOf(batch: seq<StateData>, i: nat) returns (j: nat)
    requires i < |batch|
    ensures i <= j < |batch| && batch[j].entityId == batch[i].entityId && IsLast(batch, j)
    decreases |batch| - i
  {
    if IsLast(batch, i) {
      j := i;
    } else {
      var k :| i < k < |batch| && batch[k].entityId == batch[i].entityId;
      j := LastOf(batch, k);
    }
  }

  /** The merged mirror holds each entity of the batch as its last record leaves it, */
  lemma {:induction false} MergeMemAt(live: Mirror, batch: seq<StateData>, j: nat)
    requires j < |batch| && IsLast(batch, j)
    ensures batch[j].entityId in MergeMem(live, batch)
    ensures MergeMem(live, batch)[batch[j].entityId] == Installed(live, batch[j])
  {
    var rest := batch[..|batch| - 1];
    if j < |rest| {
      assert rest[j] == batch[j] && batch[|rest|].entityId != batch[j].entityId;
      MergeMemAt(live, rest, j);
    }
  }

  /** and nothing else. */
  lemma {:induction false} MergeMemOnly(live: Mirror, batch: seq<StateData>, id: string) returns (j: nat)
    requires id in MergeMem(live, batch)
    ensures j < |batch| && batch[j].entityId == id && IsLast(batch, j)
    ensures MergeMem(live, batch)[id] == Installed(live, batch[j])
  {
    var rest := batch[..|batch| - 1];
    if batch[|rest|].entityId == id {
      j := |rest|;
    } else {
      j := MergeMemOnly(live, rest, id);
      assert rest[j] == batch[j];
    }
  }

  /** The appended rows are those of exactly the records Appends picks, once each, in batch order: at says which. */
  lemma {:induction false} MergeRowsAre(live: Mirror, baseline: map<string, Row>, batch: seq<StateData>)
      returns (at: seq<nat>)
    ensures |at| == |MergeRows(live, baseline, batch)|
    ensures forall k | 0 <= k < |at| :: at[k] < |batch| && MergeRows(live, baseline, batch)[k] == RowOf(batch[at[k]])
    ensures forall k, m | 0 <= k < m < |at| :: at[k] < at[m]
    ensures forall i: nat | i < |batch| :: i in at <==> Appends(live, baseline, batch[i])
  {
    if batch == [] {
      at := [];
    } else {
      var n := |batch| - 1;
      at := MergeRowsAre(live, baseline, batch[..n]);
      assert batch == batch[..n] + [batch[n]];
      assert n !in at;
      if Appends(live, baseline, batch[n]) { at := at + [n]; }
    }
  }

  lemma AppendedRow(live: Mirror, baseline: map<string, Row>, batch: seq<StateData>, i: nat)
    requires i < |batch| && Appends(live, baseline, batch[i])
    ensures RowOf(batch[i]) in MergeRows(live, baseline, batch)
  {
    var at := MergeRowsAre(live, baseline, batch);
    var k :| 0 <= k < |at| && at[k] == i;
    assert MergeRows(live, baseline, batch)[k] == RowOf(batch[i]);
  }

  lemma RowIsAppended(live: Mirror, baseline: map<string, Row>, batch: seq<StateData>, r: Row) returns (i: nat)
    requires r in MergeRows(live, baseline, batch)
    ensures i < |batch| && Appends(live, baseline, batch[i]) && r == RowOf(batch[i])
  {
    var at := MergeRowsAre(live, baseline, batch);
    var k :| 0 <= k < |at| && MergeRows(live, baseline, batch)[k] == r;
    i := at[k];
    assert i in at;
  }

  lemma {:induction false} NoneAppended(live: Mirror, baseline: map<string, Row>, batch: seq<StateData>)
    requires forall i: nat | i < |batch| :: !Appends(live, baseline, batch[i])
    ensures MergeRows(live, baseline, batch) == []
  {
    if batch != [] { NoneAppended(live, baseline, batch[..|batch| - 1]); }
  }

  /** Appending rows that all agree about an entity. */
  lemma {:induction false} BaselineAppend(rows: seq<Row>, more: seq<Row>, id: string)
    ensures (forall r | r in more :: r.entityId != id) ==>
              (id in Baseline(rows + more) <==> id in Baseline(rows))
              && (id in Baseline(rows) ==> Baseline(rows + more)[id] == Baseline(rows)[id])
    ensures (exists r | r in more :: r.entityId == id) ==>
              id in Baseline(rows + more) && Baseline(rows + more)[id] in more
                  && Baseline(rows + more)[id].entityId == id
  {
    if more == [] {
      assert rows + more == rows;
    } else {
      var rest, last := more[..|more| - 1], more[|more| - 1];
      assert more == rest + [last];
      assert (rows + more)[..|rows + more| - 1] == rows + rest;
      BaselineAppend(rows, rest, id);
    }
  }

  lemma {:induction false} BaselineIds(rows: seq<Row>)
    ensures forall id | id in Baseline(rows) :: Baseline(rows)[id].entityId == id && Baseline(rows)[id] in rows
  {
    if rows != [] { BaselineIds(rows[..|rows| - 1]); }
  }

  /** The newest of rows for the record's entity carries the record's value. */
  predicate Shows(rows: seq<Row>, s: StateData) {
    s.entityId in Baseline(rows) && Baseline(rows)[s.entityId] == RowOf(s)
  }

  /**
   * A seed of an empty mirror compares with committed history alone: what that shows must not be outdated by a
   * queued row.
   */
  predicate ColdFits(t: Store, batch: seq<StateData>) {
    t.mem == map[] ==>
      forall j | 0 <= j < |batch| && IsLast(batch, j) && Shows(t.history, batch[j]) :: Shows(t.Rows(), batch[j])
  }

  lemma DrainedFits(t: Store, batch: seq<StateData>)
    requires t.queue == []
    ensures ColdFits(t, batch)
  {
    assert t.Rows() == t.history;
  }

  ghost predicate MirrorsAfterSeed(t: Store, batch: seq<StateData>) {
    Mirrors(MergeMem(t.mem, batch), t.Rows() + MergeRows(t.mem, SeedBaseline(t), batch))
  }

  /** A consistent seed keeps the mirror and the newest rows in agreement. */
  lemma SeedKeepsMirror(t: Store, batch: seq<StateData>)
    requires Mirrors(t.mem, t.Rows()) && Consistent(batch) && ColdFits(t, batch)
    ensures MirrorsAfterSeed(t, batch)
  {
    var mem := MergeMem(t.mem, batch);
    forall id | id in mem
      ensures mem[id].entityId == id
      ensures Shows(t.Rows() + MergeRows(t.mem, SeedBaseline(t), batch), mem[id])
    {
      var j := MergeMemOnly(t.mem, batch, id);
      SeedKeepsEntity(t, batch, j);
    }
  }

  lemma SeedKeepsEntity(t: Store, batch: seq<StateData>, j: nat)
    requires Mirrors(t.mem, t.Rows()) && Consistent(batch) && ColdFits(t, batch)
    requires j < |batch| && IsLast(batch, j)
    ensures Installed(t.mem, batch[j]).entityId == batch[j].entityId
    ensures Shows(t.Rows() + MergeRows(t.mem, SeedBaseline(t), batch), Installed(t.mem, batch[j]))
  {
    var s, base := batch[j], SeedBaseline(t);
    var more := MergeRows(t.mem, base, batch);
    BaselineAppend(t.Rows(), more, s.entityId);
    BaselineIds(t.Rows());
    BaselineIds(t.history);
    if Appends(t.mem, base, s) { AppendedRow(t.mem, base, batch, j); }
    forall r | r in more && r.entityId == s.entityId ensures r == RowOf(s) && Appends(t.mem, base, s) {
      OnlyItsRow(t.mem, base, batch, j, r);
    }
  }

  /** A consistent batch appends no row of an entity but its last record's. */
  lemma OnlyItsRow(live: Mirror, base: map<string, Row>, batch: seq<StateData>, j: nat, r: Row)
    requires Consistent(batch) && j < |batch| && IsLast(batch, j)
    requires r in MergeRows(live, base, batch) && r.entityId == batch[j].entityId
    ensures r == RowOf(batch[j]) && Appends(live, base, batch[j])
  {
    var i := RowIsAppended(live, base, batch, r);
    assert i != j ==> i < j;
  }

  /** For a seed of an empty mirror the condition is exact, whatever is still queued. */
  lemma ColdSeedKeepsMirrorIff(t: Store, batch: seq<StateData>)
    requires t.mem == map[] && Consistent(batch)
    ensures MirrorsAfterSeed(t, batch) <==> ColdFits(t, batch)
  {
    if ColdFits(t, batch) {
      SeedKeepsMirror(t, batch);
    } else {
      var j: nat :| j < |batch| && IsLast(batch, j) && Shows(t.history, batch[j]) && !Shows(t.Rows(), batch[j]);
      SkippedRecordIsMissed(t, batch, j);
    }
  }

  /**
   * A record that committed history already shows is not appended, so a newer queued row of its entity stays the
   * newest.
   */
  lemma SkippedRecordIsMissed(t: Store, batch: seq<StateData>, j: nat)
    requires t.mem == map[] && Consistent(batch)
    requires j < |batch| && IsLast(batch, j) && Shows(t.history, batch[j]) && !Shows(t.Rows(), batch[j])
    ensures !MirrorsAfterSeed(t, batch)
  {
    var s, base := batch[j], SeedBaseline(t);
    var more := MergeRows(t.mem, base, batch);
    MergeMemAt(t.mem, batch, j);
    forall r | r in more ensures r.entityId != s.entityId {
      if r.entityId == s.entityId { OnlyItsRow(t.mem, base, batch, j, r); }
    }
    BaselineAppend(t.Rows(), more, s.entityId);
    assert MergeMem(t.mem, batch)[s.entityId] == s;
  }

  /** A live entry that an inconsistent batch leaves at odds with the rows it appends. */
  lemma BreakingEntry(batch: seq<StateData>) returns (live: StateData, j: nat, k: nat)
    requires !Consistent(batch)
    ensures j < |batch| && IsLast(batch, j) && k < |batch|
    ensures live.entityId == batch[j].entityId == batch[k].entityId
    ensures var mem := map[live.entityId := live];
            && Appends(mem, map[], batch[k])
            && forall m | 0 <= m < |batch| && batch[m].entityId == live.entityId && Appends(mem, map[], batch[m]) ::
                 !SameValue(batch[m], Installed(mem, batch[j]))
  {
    var i;
    i, j :| 0 <= i < j < |batch| && batch[i].entityId == batch[j].entityId && IsLast(batch, j)
      && !(SameValue(batch[i], batch[j]) && !Outlasts(batch[i].lastUpdated, batch[j].lastUpdated));
    var s := batch[j];
    if m :| 0 <= m < |batch| && batch[m].entityId == s.entityId && !SameValue(batch[m], s) {
      live, k := s.(lastUpdated := Unparseable("")), m;
    } else {
      live, k := s.(state := s.state + "!", lastUpdated := At(s.lastUpdated.instant + 1)), i;
      assert |live.state| != |s.state|;
    }
  }

  /** An inconsistent batch breaks the agreement for some tracker. */
  lemma InconsistentSeedBreaksMirror(batch: seq<StateData>) returns (t: Store)
    requires !Consistent(batch)
    ensures Mirrors(t.mem, t.Rows()) && t.mem != map[]
    ensures !MirrorsAfterSeed(t, batch)
  {
    var live, j, k := BreakingEntry(batch);
    var id := live.entityId;
    t := Store(map[id := live], [], [RowOf(live)]);
    assert id in t.mem;
    assert t.Rows() == [RowOf(live)] && [RowOf(live)][..0] == [];
    var more := MergeRows(t.mem, map[], batch);
    MergeMemAt(t.mem, batch, j);
    AppendedRow(t.mem, map[], batch, k);
    BaselineAppend(t.Rows(), more, id);
    forall r | r in more && r.entityId == id ensures r != RowOf(Installed(t.mem, batch[j])) {
      var m := RowIsAppended(t.mem, map[], batch, r);
    }
  }

  /** Consistency is exactly what a batch needs in order to keep mirror and history in agreement. */
  lemma SeedKeepsMirrorIffConsistent(batch: seq<StateData>)
    ensures Consistent(batch) <==>
            forall t: Store | Mirrors(t.mem, t.Rows()) && ColdFits(t, batch) :: MirrorsAfterSeed(t, batch)
  {
    if Consistent(batch) {
      forall t: Store | Mirrors(t.mem, t.Rows()) && ColdFits(t, batch) ensures MirrorsAfterSeed(t, batch) {
        SeedKeepsMirror(t, batch);
      }
    } else {
      var t := InconsistentSeedBreaksMirror(batch);
    }
  }

  // ---------- What one operation does, field by field ----------

  /** A change stores its state, with absent attributes as an empty object, and enqueues the row that says so. */
  lemma ChangeIsMirrored(t: Store, x: StateData)
    ensures var attributes := if x.attributes == "" then "{}" else x.attributes;
            var u := Step(t, Apply(Changed(x)));
            && x.entityId in u.mem
            && u.mem[x.entityId] == StateData(x.entityId, x.state, attributes, x.lastUpdated)
            && SameElsewhere(t.mem, u.mem, x.entityId)
            && u.queue == t.queue + [Row(x.entityId, x.state, attributes)] && u.history == t.history
  {
  }

  /** A removal drops its entity and nothing else; a payload that does not decode does nothing. */
  lemma RemovalIsMirrored(t: Store, id: string)
    ensures var u := Step(t, Apply(Removed(id)));
            id !in u.mem && SameElsewhere(t.mem, u.mem, id) && u.queue == t.queue && u.history == t.history
    ensures Step(t, Apply(Undecodable)) == t
  {
  }

  predicate SameElsewhere(a: Mirror, b: Mirror, id: string) {
    a - {id} == b - {id}
  }

  predicate Touches(op: Op, id: string) {
    match op
    case Seed(states) => states != []
    case Apply(Removed(other)) => other == id
    case Apply(Changed(s)) => s.entityId == id
    case _ => false
  }

  /** Whatever happens to other entities and to the queue, the mirror goes on showing an entity's last change. */
  lemma {:induction false} LastChangeShows(t: Store, x: StateData, ops: seq<Op>)
    requires forall op | op in ops :: !Touches(op, x.entityId)
    ensures var mem := Run(Step(t, Apply(Changed(x))), ops).mem;
            && x.entityId in mem && mem[x.entityId].state == x.state
            && mem[x.entityId].attributes == if x.attributes == "" then "{}" else x.attributes
  {
    if ops != [] {
      var rest, op := ops[..|ops| - 1], ops[|ops| - 1];
      LastChangeShows(t, x, rest);
      assert op in ops && !Touches(op, x.entityId);
    }
  }

  /** A commit of n rows takes the n oldest from the queue, or all there are, and does not touch the mirror. */
  lemma CommitMovesOldest(t: Store, n: nat)
    ensures var u := Step(t, Commit(n));
            && u.mem == t.mem && u.history + u.queue == t.history + t.queue
            && |u.history| == |t.history| + if n < |t.queue| then n else |t.queue|
  {
    assert t.queue[..|t.queue|] == t.queue;
  }

  /** What a seed leaves of an entity: the live entry if both stamps are instants and it is later, else the record. */
  lemma SeedLeaves(t: Store, states: seq<StateData>, j: nat)
    requires j < |states| && forall k | j < k < |states| :: states[k].entityId != states[j].entityId
    ensures var s, id := states[j], states[j].entityId;
            var mem := Step(t, Seed(states)).mem;
            && id in mem
            && mem[id] ==
               if id in t.mem && t.mem[id].lastUpdated.At? && s.lastUpdated.At?
                   && t.mem[id].lastUpdated.instant > s.lastUpdated.instant then t.mem[id]
               else StateData(id, s.state, if s.attributes == "" then "{}" else s.attributes, s.lastUpdated)
  {
    MergeMemAt(t.mem, NormalisedAll(states), j);
  }

  /** Entities the batch does not name are gone, but an empty batch changes nothing. */
  lemma SeedForgets(t: Store, states: seq<StateData>, id: string)
    ensures states != [] && (forall i | 0 <= i < |states| :: states[i].entityId != id) ==>
              id !in Step(t, Seed(states)).mem
    ensures Step(t, Seed([])) == t
  {
    if states != [] && id in Step(t, Seed(states)).mem {
      var j := MergeMemOnly(t.mem, NormalisedAll(states), id);
    }
  }

  /** The newest row of an entity is the last one written for it. */
  lemma {:induction false} BaselineIsNewest(rows: seq<Row>, k: nat)
    requires k < |rows| && forall m | k < m < |rows| :: rows[m].entityId != rows[k].entityId
    ensures rows[k].entityId in Baseline(rows) && Baseline(rows)[rows[k].entityId] == rows[k]
  {
    var rest := rows[..|rows| - 1];
    if k < |rest| {
      assert rest[k] == rows[k] && rows[|rest|].entityId != rows[k].entityId;
      BaselineIsNewest(rest, k);
    }
  }

  lemma {:induction false} BaselineNewestAt(rows: seq<Row>, id: string) returns (k: nat)
    requires id in Baseline(rows)
    ensures k < |rows| && rows[k] == Baseline(rows)[id] && rows[k].entityId == id
    ensures forall m | k < m < |rows| :: rows[m].entityId != id
  {
    var n := |rows| - 1;
    if rows[n].entityId == id {
      k := n;
    } else {
      k := BaselineNewestAt(rows[..n], id);
      assert rows[k] == rows[..n][k];
    }
  }

  /** The newest row of id is Row(id, state, attributes). */
  ghost predicate NewestRowIs(rows: seq<Row>, id: string, state: string, attributes: string) {
    exists k | 0 <= k < |rows| ::
      rows[k] == Row(id, state, attributes) && forall m | k < m < |rows| :: rows[m].entityId != id
  }

  lemma NewestRowIff(rows: seq<Row>, id: string, state: string, attributes: string)
    ensures NewestRowIs(rows, id, state, attributes) <==>
            id in Baseline(rows) && Baseline(rows)[id] == Row(id, state, attributes)
  {
    if id in Baseline(rows) {
      var k := BaselineNewestAt(rows, id);
    }
    if NewestRowIs(rows, id, state, attributes) {
      var k :| 0 <= k < |rows| && rows[k] == Row(id, state, attributes)
        && forall m | k < m < |rows| :: rows[m].entityId != id;
      BaselineIsNewest(rows, k);
    }
  }

  /**
   * A seed of distinct entities enqueues a record's row exactly when no later live entry survives it and its value
   * differs from what is known: the live entry's, or on a cold start the newest committed row's.
   */
  lemma SeedEnqueuesIff(t: Store, states: seq<StateData>, i: nat)
    requires i < |states| && forall j, k | 0 <= j < k < |states| :: states[j].entityId != states[k].entityId
    ensures var s, id := states[i], states[i].entityId;
            var attributes := if s.attributes == "" then "{}" else s.attributes;
            Row(id, s.state, attributes) in Step(t, Seed(states)).queue[|t.queue|..] <==>
            if id in t.mem then
              && (t.mem[id].state != s.state || t.mem[id].attributes != attributes)
              && !(t.mem[id].lastUpdated.At? && s.lastUpdated.At?
                  && t.mem[id].lastUpdated.instant > s.lastUpdated.instant)
            else
              t.mem == map[] ==> !NewestRowIs(t.history, id, s.state, attributes)
  {
    var batch, base := NormalisedAll(states), SeedBaseline(t);
    var more, s := MergeRows(t.mem, base, batch), batch[i];
    assert Step(t, Seed(states)).queue[|t.queue|..] == more;
    NewestRowIff(t.history, s.entityId, s.state, s.attributes);
    BaselineIds(t.history);
    if Appends(t.mem, base, s) { AppendedRow(t.mem, base, batch, i); }
    if RowOf(s) in more {
      var j := RowIsAppended(t.mem, base, batch, RowOf(s));
      assert states[i].entityId == states[j].entityId;
    }
  }

  // ---------- Whole runs ----------

  /**
   * Every seed's batch is consistent, and a seed of an empty mirror finds no queued row that outdates what history
   * shows.
   */
  predicate Orderly(t: Store, ops: seq<Op>) {
    ops == [] ||
    var rest, op := ops[..|ops| - 1], ops[|ops| - 1];
    Orderly(t, rest) &&
    (op.Seed? ==> Consistent(NormalisedAll(op.states)) && ColdFits(Run(t, rest), NormalisedAll(op.states)))
  }

  /** The rows a run hands to the writer, in order. */
  function Enqueued(t: Store, ops: seq<Op>): seq<Row> {
    if ops == [] then []
    else
      var rest, op := ops[..|ops| - 1], ops[|ops| - 1];
      Enqueued(t, rest) + NewRows(Run(t, rest), op)
  }

  function NewRows(t: Store, op: Op): seq<Row> {
    match op
    case Seed(states) => MergeRows(t.mem, SeedBaseline(t), NormalisedAll(states))
    case Apply(Changed(s)) => [RowOf(Normalised(s))]
    case _ => []
  }

  lemma StepRows(t: Store, op: Op)
    ensures Step(t, op).Rows() == t.Rows() + NewRows(t, op) && t.history <= Step(t, op).history
  {
  }

  lemma StepKeepsMirror(t: Store, op: Op)
    requires Mirrors(t.mem, t.Rows())
    requires op.Seed? ==> Consistent(NormalisedAll(op.states)) && ColdFits(t, NormalisedAll(op.states))
    ensures Mirrors(Step(t, op).mem, Step(t, op).Rows())
  {
    StepRows(t, op);
    assert t.Rows() + [] == t.Rows();
    if op.Seed? && op.states != [] {
      SeedKeepsMirror(t, NormalisedAll(op.states));
    } else if op.Apply? && op.change.Changed? {
      var row := RowOf(Normalised(op.change.newState));
      assert (t.Rows() + [row])[..|t.Rows()|] == t.Rows();
    }
  }

  /** In every orderly run from a restart, mirror and newest rows agree. */
  lemma {:induction false} RunKeepsMirror(history: seq<Row>, ops: seq<Op>)
    requires Orderly(Store(map[], [], history), ops)
    ensures var t := Run(Store(map[], [], history), ops); Mirrors(t.mem, t.Rows())
  {
    if ops != [] {
      RunKeepsMirror(history, ops[..|ops| - 1]);
      StepKeepsMirror(Run(Store(map[], [], history), ops[..|ops| - 1]), ops[|ops| - 1]);
    }
  }

  /** Committed history followed by the queue is always the old history followed by the rows in enqueue order. */
  lemma {:induction false} HistoryIsEnqueueOrder(t: Store, ops: seq<Op>)
    ensures Run(t, ops).Rows() == t.Rows() + Enqueued(t, ops)
    ensures t.history <= Run(t, ops).history
  {
    if ops != [] {
      var rest, op := ops[..|ops| - 1], ops[|ops| - 1];
      HistoryIsEnqueueOrder(t, rest);
      var before := Run(t, rest);
      StepRows(before, op);
    }
  }

  /** Such a row is possible: this run's seed leaves the mirror at odds with the newest row. */
  lemma UndrainedColdSeedLosesARow()
    ensures var off, on := StateData("light.a", "off", "{}", At(1)), StateData("light.a", "on", "{}", At(2));
            var t := Run(Store(map[], [], [RowOf(off)]), [Apply(Changed(on)), Apply(Removed("light.a")), Seed([off])]);
            !Mirrors(t.mem, t.Rows())
  {
    var off, on := StateData("light.a", "off", "{}", At(1)), StateData("light.a", "on", "{}", At(2));
    var t0, o0, o1, o2 := Store(map[], [], [RowOf(off)]), Apply(Changed(on)), Apply(Removed("light.a")), Seed([off]);
    assert [o0, o1, o2][..2] == [o0, o1] && [o0, o1][..1] == [o0] && [o0][..0] == [];
    assert [off][..0] == [] && [RowOf(off)][..0] == [] && [RowOf(off), RowOf(on)][..1] == [RowOf(off)];
    var t2 := Step(Step(t0, o0), o1);
    assert Run(t0, [o0]) == Step(t0, o0) && Run(t0, [o0, o1]) == t2;
    assert t2 == Store(map[], [RowOf(on)], [RowOf(off)]);
    assert NormalisedAll([off]) == [off];
    assert MergeRows(map[], Baseline([RowOf(off)]), [off]) == [];
    assert MergeMem(map[], [off]) == map["light.a" := off];
    var t3 := Step(t2, o2);
    assert t3.mem == map["light.a" := off] && t3.queue == [RowOf(on)] + [] == [RowOf(on)];
    assert t3.Rows() == [RowOf(off), RowOf(on)];
    assert "light.a" in t3.mem;
    assert on.state != off.state;
  }

  // ---------- Re-seeding ----------

  /** A second seed of the same batch never changes the mirror. */
  lemma SecondSeedKeepsMirror(live: Mirror, batch: seq<StateData>)
    ensures MergeMem(MergeMem(live, batch), batch) == MergeMem(live, batch)
  {
    var once := MergeMem(live, batch);
    forall id | id in once ensures id in MergeMem(once, batch) && MergeMem(once, batch)[id] == once[id] {
      var j := MergeMemOnly(live, batch, id);
      MergeMemAt(once, batch, j);
    }
    forall id | id in MergeMem(once, batch) ensures id in once {
      var j := MergeMemOnly(once, batch, id);
      MergeMemAt(live, batch, j);
    }
  }

  lemma ReplayableAppendsNothing(live: Mirror, batch: seq<StateData>)
    requires Replayable(batch)
    ensures MergeRows(MergeMem(live, batch), map[], batch) == []
  {
    var once := MergeMem(live, batch);
    forall i: nat | i < |batch| ensures !Appends(once, map[], batch[i]) {
      var j := LastOf(batch, i);
      MergeMemAt(live, batch, j);
    }
    NoneAppended(once, map[], batch);
  }

  lemma UnreplayableAppendsAgain(batch: seq<StateData>) returns (live: Mirror)
    requires !Replayable(batch)
    ensures MergeRows(MergeMem(live, batch), map[], batch) != []
  {
    var i, j :| 0 <= i < j < |batch| && batch[i].entityId == batch[j].entityId && IsLast(batch, j)
      && !NewerThan(batch[j].lastUpdated, batch[i].lastUpdated)
      && !(SameValue(batch[i], batch[j]) && !Outlasts(batch[i].lastUpdated, batch[j].lastUpdated));
    var s := batch[j];
    live := map[];
    if SameValue(batch[i], s) {
      live := map[s.entityId := s.(state := s.state + "!", lastUpdated := At(s.lastUpdated.instant + 1))];
      assert |live[s.entityId].state| != |batch[i].state|;
    }
    MergeMemAt(live, batch, j);
    AppendedRow(MergeMem(live, batch), map[], batch, i);
  }

  lemma SecondSeedIsSilentIffReplayable(batch: seq<StateData>)
    ensures Replayable(batch) <==> forall live: Mirror :: MergeRows(MergeMem(live, batch), map[], batch) == []
  {
    if Replayable(batch) {
      forall live: Mirror ensures MergeRows(MergeMem(live, batch), map[], batch) == [] {
        ReplayableAppendsNothing(live, batch);
      }
    } else {
      var live := UnreplayableAppendsAgain(batch);
    }
  }

  /** On the whole store: two seeds of one replayable, non-empty batch in succession leave what one leaves. */
  lemma SeedIsIdempotent(t: Store, states: seq<StateData>)
    requires Replayable(NormalisedAll(states))
    ensures Step(Step(t, Seed(states)), Seed(states)) == Step(t, Seed(states))
  {
    if states != [] {
      var batch := NormalisedAll(states);
      SecondSeedKeepsMirror(t.mem, batch);
      ReplayableAppendsNothing(t.mem, batch);
      var j := LastOf(batch, 0);
      MergeMemAt(t.mem, batch, j);
    }
  }

  /** Whatever the mirror holds when the merge runs, the result has exactly the batch's entities, */
  lemma MergeHasBatchIds(live: Mirror, batch: seq<StateData>, id: string)
    ensures id in MergeMem(live, batch) <==> exists i | 0 <= i < |batch| :: batch[i].entityId == id
  {
    if id in MergeMem(live, batch) {
      var j := MergeMemOnly(live, batch, id);
    }
    if i :| 0 <= i < |batch| && batch[i].entityId == id {
      var j := LastOf(batch, i);
      MergeMemAt(live, batch, j);
    }
  }

  /** and no entity on both sides goes back in time. */
  lemma MergeNeverRegresses(live: Mirror, batch: seq<StateData>, id: string)
    requires id in live && id in MergeMem(live, batch)
    requires live[id].lastUpdated.At? && MergeMem(live, batch)[id].lastUpdated.At?
    ensures MergeMem(live, batch)[id].lastUpdated.instant >= live[id].lastUpdated.instant
  {
    var j := MergeMemOnly(live, batch, id);
  }
}
