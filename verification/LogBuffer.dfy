// The ring of recent log records and what a polling reader sees of it.
module LogBuffer {
  import opened Wrappers

  datatype Record = Record(number: nat, level: string, msg: string, attrs: map<string, string>)

  const DEFAULT_CAPACITY: nat := 500
  const SCRIPT_KEY: string := "script"
  const ANY_SCRIPT: string := "*"

  /**
   * since: only records newer than this one; level: the lowest level; script: "" for all, or one script's, or any
   * script's.
   */
  datatype Query = Query(since: nat, level: int, script: string)

  function Attr(r: Record, key: string): string {
    if key in r.attrs then r.attrs[key] else ""
  }

  predicate MatchesScript(r: Record, want: string) {
    want == "" || (if want == ANY_SCRIPT then Attr(r, SCRIPT_KEY) != "" else Attr(r, SCRIPT_KEY) == want)
  }

  /** A level the parser does not know passes. */
  predicate Passes(r: Record, q: Query, parseLevel: string -> Option<int>) {
    && (parseLevel(r.level).Some? ==> parseLevel(r.level).value >= q.level)
    && MatchesScript(r, q.script)
  }

  predicate Wanted(r: Record, q: Query, parseLevel: string -> Option<int>) {
    r.number > q.since && Passes(r, q, parseLevel)
  }

  function Select(records: seq<Record>, q: Query, parseLevel: string -> Option<int>): seq<Record> {
    if records == [] then []
    else
      var rest, r := records[..|records| - 1], records[|records| - 1];
      if Wanted(r, q, parseLevel) then Select(rest, q, parseLevel) + [r] else Select(rest, q, parseLevel)
  }

  /** What is left of a log of records in a ring of the given capacity. */
  function Last(log: seq<Record>, capacity: nat): seq<Record> {
    if |log| <= capacity then log else log[|log| - capacity..]
  }

  /** Records are numbered from 1 in the order they were appended. */
  ghost predicate Numbered(log: seq<Record>) {
    forall k | 0 <= k < |log| :: log[k].number == k + 1
  }

  /** In a full ring the oldest record is at next, and the newest just before it. */
  ghost predicate Holds(ring: seq<Record>, next: nat, full: bool, log: seq<Record>) {
    && next < |ring|
    && if full then
         && |log| >= |ring|
         && (forall i | 0 <= i < next :: ring[i] == log[|log| - next + i])
         && (forall i | next <= i < |ring| :: ring[i] == log[|log| - |ring| - next + i])
       else |log| == next && ring[..next] == log
  }

  lemma AppendHolds(ring: seq<Record>, next: nat, full: bool, log: seq<Record>, rec: Record)
    requires Holds(ring, next, full, log)
    ensures var after := if next + 1 == |ring| then 0 else next + 1;
            Holds(ring[next := rec], after, full || after == 0, log + [rec])
  {
    if !full {
      assert ring[next := rec][..next + 1] == log + [rec];
    }
  }

  lemma OldestFirst(ring: seq<Record>, next: nat, log: seq<Record>)
    requires Holds(ring, next, true, log)
    ensures ring[next..] + ring[..next] == Last(log, |ring|)
  {
    assert Last(log, |ring|) == log[|log| - |ring|..];
  }

  class Buffer {
    const ring: array<Record>
    var next: nat
    var total: nat
    var full: bool
    ghost var log: seq<Record>

    ghost predicate Valid()
      reads this, ring
    {
      total == |log| && Numbered(log) && Holds(ring[..], next, full, log)
    }

    constructor (capacity: int)
      ensures Valid() && log == [] && fresh(ring)
      ensures ring.Length == if capacity <= 0 then 500 else capacity
    {
      var n := if capacity <= 0 then DEFAULT_CAPACITY else capacity;
      ring := new Record[n](_ => Record(0, "", "", map[]));
      next, total, full, log := 0, 0, false, [];
    }

    /** The record is numbered here, whatever number it came with. */
    method Append(rec: Record)
      requires Valid()
      modifies this, ring
      ensures Valid() && log == old(log) + [rec.(number := |log|)]
    {
      AppendHolds(ring[..], next, full, log, rec.(number := total + 1));
      Wrap(next, ring.Length);
      total := total + 1;
      log := log + [rec.(number := total)];
      ring[next] := rec.(number := total);
      assert ring[..] == old(ring[..])[next := rec.(number := total)];
      next := (next + 1) % ring.Length;
      if next == 0 {
        full := true;
      }
    }

    /** Oldest first. */
    method Ordered() returns (records: seq<Record>)
      requires Valid()
      ensures records == Last(log, ring.Length)
    {
      if !full {
        records := ring[..next];
        assert ring[..][..next] == records;
      } else {
        records := ring[next..] + ring[..next];
        OldestFirst(ring[..], next, log);
        assert records == ring[..][next..] + ring[..][..next];
      }
    }

    method Snapshot(q: Query, parseLevel: string -> Option<int>) returns (out: seq<Record>, newest: nat)
      requires Valid()
      ensures out == Select(Last(log, ring.Length), q, parseLevel) && newest == |log|
    {
      out := [];
      var records := Ordered();
      for i := 0 to |records|
        invariant out == Select(records[..i], q, parseLevel)
      {
        var rec := records[i];
        assert records[..i + 1][..i] == records[..i];
        if rec.number <= q.since {
          continue;
        }
        var lvl := parseLevel(rec.level);
        if lvl.Some? && lvl.value < q.level {
          continue;
        }
        if !MatchesScript(rec, q.script) {
          continue;
        }
        out := out + [rec];
      }
      assert records[..|records|] == records;
      newest := total;
    }
  }

  lemma Wrap(i: nat, n: nat)
    requires i < n
    ensures (i + 1) % n == if i + 1 == n then 0 else i + 1
  {
    if i + 1 < n { assert (i + 1) / n == 0; } else { assert (i + 1) / n == 1; }
  }

  // ---------- What a snapshot holds ----------

  /** Every record still in the ring passes but for its number. */
  ghost predicate Unfiltered(q: Query, log: seq<Record>, parseLevel: string -> Option<int>) {
    q.script == "" && forall r | r in log && parseLevel(r.level).Some? :: parseLevel(r.level).value >= q.level
  }

  ghost predicate InOrder(records: seq<Record>) {
    forall i, j | 0 <= i < j < |records| :: records[i].number < records[j].number
  }

  /** A selection keeps exactly the wanted records, in order. */
  lemma {:induction false} SelectIs(records: seq<Record>, q: Query, parseLevel: string -> Option<int>)
    ensures forall r :: r in Select(records, q, parseLevel) <==> r in records && Wanted(r, q, parseLevel)
    ensures InOrder(records) ==> InOrder(Select(records, q, parseLevel))
  {
    if records != [] {
      var rest, r := records[..|records| - 1], records[|records| - 1];
      assert records == rest + [r];
      SelectIs(rest, q, parseLevel);
      var s := Select(rest, q, parseLevel);
      assert forall i | 0 <= i < |s| :: s[i] in s;
    }
  }

  /** What is left in the ring is told by the numbers. */
  lemma LastHas(log: seq<Record>, capacity: nat, r: Record)
    requires Numbered(log)
    ensures r in Last(log, capacity) <==> r in log && r.number > |log| - capacity
    ensures InOrder(Last(log, capacity))
  {
    if r in log {
      var k :| 0 <= k < |log| && log[k] == r;
      if k >= |log| - capacity && |log| > capacity { assert Last(log, capacity)[k - (|log| - capacity)] == r; }
    }
  }

  lemma SnapshotPasses(log: seq<Record>, capacity: nat, q: Query, parseLevel: string -> Option<int>, r: Record)
    requires Numbered(log)
    ensures r in Select(Last(log, capacity), q, parseLevel)
            <==> r in log && r.number > q.since && r.number > |log| - capacity && Passes(r, q, parseLevel)
    ensures InOrder(Select(Last(log, capacity), q, parseLevel))
  {
    LastHas(log, capacity, r);
    SelectIs(Last(log, capacity), q, parseLevel);
  }

  /**
   * A snapshot, whatever its filter, holds exactly the records newer than since and not overwritten whose level is not
   * below the lowest, or unknown, and whose script is the one asked for: any record at all for "", any that names a
   * script for "*".
   */
  lemma SnapshotIff(log: seq<Record>, capacity: nat, q: Query, parseLevel: string -> Option<int>, r: Record)
    requires Numbered(log)
    ensures r in Select(Last(log, capacity), q, parseLevel)
            <==>
            && r in log && r.number > q.since && r.number > |log| - capacity
            && !(parseLevel(r.level).Some? && parseLevel(r.level).value < q.level)
            && (if q.script == "*" then ScriptOf(r) != "" else q.script == "" || q.script == ScriptOf(r))
    ensures InOrder(Select(Last(log, capacity), q, parseLevel))
  {
    SnapshotPasses(log, capacity, q, parseLevel, r);
  }

  /** The script a record is attributed to, if any. */
  function ScriptOf(r: Record): string {
    if "script" in r.attrs then r.attrs["script"] else ""
  }

  /** Where an unfiltered read starts: after what the reader has seen, and after what the ring has overwritten. */
  function Floor(since: nat, now: nat, capacity: nat): nat {
    if now >= capacity && now - capacity > since then now - capacity else since
  }

  /**
   * An unfiltered snapshot since s holds exactly the records newer than both s and total - capacity, in order and
   * without a gap.
   */
  lemma UnfilteredSnapshot(log: seq<Record>, capacity: nat, q: Query, parseLevel: string -> Option<int>)
    requires Numbered(log) && Unfiltered(q, log, parseLevel)
    ensures var from := Floor(q.since, |log|, capacity);
            Select(Last(log, capacity), q, parseLevel) == Between(log, from, |log|)
  {
    var n := if |log| <= capacity then 0 else |log| - capacity;
    assert log[n..|log|] == Last(log, capacity);
    SelectTail(log, n, |log|, q, parseLevel);
  }

  lemma {:induction false} SelectTail(log: seq<Record>, n: nat, m: nat, q: Query, parseLevel: string -> Option<int>)
    requires Numbered(log) && Unfiltered(q, log, parseLevel) && n <= m <= |log|
    ensures Select(log[n..m], q, parseLevel) == Between(log, if q.since > n then q.since else n, m)
    decreases m
  {
    if n < m {
      SelectSnoc(log, n, m, q, parseLevel);
      SelectTail(log, n, m - 1, q, parseLevel);
      BetweenSnoc(log, if q.since > n then q.since else n, m);
    }
  }

  function Between(log: seq<Record>, from: nat, to: nat): seq<Record>
    requires to <= |log|
  {
    if from < to then log[from..to] else []
  }

  lemma BetweenSnoc(log: seq<Record>, from: nat, to: nat)
    requires 0 < to <= |log|
    ensures Between(log, from, to) == if from < to then Between(log, from, to - 1) + [log[to - 1]] else []
    ensures from >= to ==> Between(log, from, to - 1) == []
  {
  }

  lemma SelectSnoc(log: seq<Record>, n: nat, m: nat, q: Query, parseLevel: string -> Option<int>)
    requires Numbered(log) && Unfiltered(q, log, parseLevel) && n < m <= |log|
    ensures Select(log[n..m], q, parseLevel)
            == Select(log[n..m - 1], q, parseLevel) + if m > q.since then [log[m - 1]] else []
  {
    assert log[n..m][..m - n - 1] == log[n..m - 1] && log[n..m][m - n - 1] == log[m - 1];
    assert log[m - 1] in log;
  }

  // ---------- A poller ----------

  predicate Bounded(totals: seq<nat>, n: nat) {
    forall i | 0 <= i < |totals| :: totals[i] <= n
  }

  /** A poller passes back the newest number it was told; totals are the records appended by the time of each poll. */
  function Polled(log: seq<Record>, totals: seq<nat>, capacity: nat, q: Query,
      parseLevel: string -> Option<int>): seq<Record>
    requires Bounded(totals, |log|)
  {
    if totals == [] then []
    else
      var rest, now := totals[..|totals| - 1], totals[|totals| - 1];
      var more := Select(Last(log[..now], capacity), q.(since := Told(rest)), parseLevel);
      Polled(log, rest, capacity, q, parseLevel) + more
  }

  function Told(totals: seq<nat>): nat {
    if totals == [] then 0 else totals[|totals| - 1]
  }

  ghost predicate Ascending(q: seq<nat>) {
    forall i, j | 0 <= i < j < |q| :: q[i] <= q[j]
  }

  /** Record k was still unseen at the poll before poll i, and out of the ring at poll i. */
  predicate LostAt(totals: seq<nat>, capacity: nat, k: nat, i: nat)
    requires i < |totals|
  {
    Told(totals[..i]) < k <= totals[i] - capacity
  }

  ghost predicate Overwritten(totals: seq<nat>, capacity: nat, k: nat) {
    exists i: nat :: i < |totals| && LostAt(totals, capacity, k, i)
  }

  lemma OverwrittenSnoc(totals: seq<nat>, capacity: nat, k: nat)
    requires totals != []
    ensures Overwritten(totals, capacity, k)
            <==> Overwritten(totals[..|totals| - 1], capacity, k) || LostAt(totals, capacity, k, |totals| - 1)
  {
    var rest := totals[..|totals| - 1];
    forall i: nat | i < |rest| ensures LostAt(rest, capacity, k, i) == LostAt(totals, capacity, k, i) {
      assert totals[..i] == rest[..i];
    }
    if Overwritten(rest, capacity, k) {
      var i: nat :| i < |rest| && LostAt(rest, capacity, k, i);
      assert LostAt(totals, capacity, k, i);
    }
    if Overwritten(totals, capacity, k) {
      var i: nat :| i < |totals| && LostAt(totals, capacity, k, i);
      assert i < |rest| ==> LostAt(rest, capacity, k, i);
    }
  }

  /** What an earlier poll lost, it was told of. */
  lemma OverwrittenEarly(totals: seq<nat>, capacity: nat, k: nat)
    requires Ascending(totals) && totals != []
    ensures Overwritten(totals[..|totals| - 1], capacity, k) ==> k <= Told(totals[..|totals| - 1])
  {
    var rest := totals[..|totals| - 1];
    if Overwritten(rest, capacity, k) {
      var i: nat :| i < |rest| && LostAt(rest, capacity, k, i);
      assert rest[i] == totals[i] && rest[|rest| - 1] == totals[|rest| - 1];
    }
  }

  lemma InPrefix(log: seq<Record>, now: nat, r: Record)
    requires Numbered(log) && now <= |log|
    ensures Numbered(log[..now]) && (r in log[..now] <==> r in log && r.number <= now)
  {
    if r in log && r.number <= now {
      assert log[r.number - 1] == r;
      assert log[..now][r.number - 1] == r;
    }
  }

  /**
   * A poller with any filter sees every passing record up to its last poll, except exactly those overwritten
   * between two polls.
   */
  lemma {:induction false} PollerMissesOnlyOverwritten(log: seq<Record>, totals: seq<nat>, capacity: nat, q: Query,
                                                       parseLevel: string -> Option<int>, r: Record)
    requires Numbered(log) && Ascending(totals) && Bounded(totals, |log|)
    ensures r in Polled(log, totals, capacity, q, parseLevel)
            <==>
            && r in log && r.number <= Told(totals)
            && Passes(r, q, parseLevel) && !Overwritten(totals, capacity, r.number)
  {
    if totals == [] {
      assert forall k | 0 <= k < |log| :: log[k].number > 0;
    } else {
      var rest, now := totals[..|totals| - 1], totals[|totals| - 1];
      assert totals == rest + [now];
      PollerMissesOnlyOverwritten(log, rest, capacity, q, parseLevel, r);
      InPrefix(log, now, r);
      SnapshotPasses(log[..now], capacity, q.(since := Told(rest)), parseLevel, r);
      OverwrittenSnoc(totals, capacity, r.number);
      OverwrittenEarly(totals, capacity, r.number);
    }
  }

  /** A poller sees no record twice, and sees them in order. */
  lemma {:induction false} PollerSeesInOrder(log: seq<Record>, totals: seq<nat>, capacity: nat, q: Query,
                                             parseLevel: string -> Option<int>)
    requires Numbered(log) && Ascending(totals) && Bounded(totals, |log|)
    ensures InOrder(Polled(log, totals, capacity, q, parseLevel))
    ensures forall r | r in Polled(log, totals, capacity, q, parseLevel) :: r.number <= Told(totals)
  {
    if totals != [] {
      var rest, now := totals[..|totals| - 1], totals[|totals| - 1];
      assert totals == rest + [now];
      PollerSeesInOrder(log, rest, capacity, q, parseLevel);
      NextPoll(log, now, Told(rest), capacity, q, parseLevel);
      var seen := Polled(log, rest, capacity, q, parseLevel);
      var more := Select(Last(log[..now], capacity), q.(since := Told(rest)), parseLevel);
      InOrderConcat(seen, more, Told(rest));
    }
  }

  lemma NextPoll(log: seq<Record>, now: nat, told: nat, capacity: nat, q: Query, parseLevel: string -> Option<int>)
    requires Numbered(log) && now <= |log|
    ensures var more := Select(Last(log[..now], capacity), q.(since := told), parseLevel);
            InOrder(more) && forall r | r in more :: told < r.number <= now
  {
    var more := Select(Last(log[..now], capacity), q.(since := told), parseLevel);
    LastHas(log[..now], capacity, Record(0, "", "", map[]));
    SelectIs(Last(log[..now], capacity), q.(since := told), parseLevel);
    forall r | r in more ensures told < r.number <= now {
      SnapshotPasses(log[..now], capacity, q.(since := told), parseLevel, r);
    }
  }

  lemma InOrderConcat(a: seq<Record>, b: seq<Record>, told: nat)
    requires InOrder(a) && InOrder(b) && (forall r | r in a :: r.number <= told) && forall r | r in b :: told < r.number
    ensures InOrder(a + b)
  {
    assert forall i | 0 <= i < |a| :: a[i] in a;
    assert forall i | 0 <= i < |b| :: b[i] in b;
  }
}
