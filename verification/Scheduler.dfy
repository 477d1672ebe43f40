// The timer engine: rows in a table, deadlines in an array min-heap, and a
// fire-and-reschedule pass over everything due.
module Scheduler {
  import opened Text
  import opened Wrappers

  datatype Kind = Every | At | After

  datatype Timer = Timer(id: string, scriptId: string, kind: Kind, spec: string, nextRun: int)

  datatype Row = Row(scriptId: string, kind: Kind, spec: string, lastRun: Option<int>, nextRun: int)

  // ---------- Deadlines ----------

  // Instants are nanoseconds since the epoch.
  const MINUTE: int := 60_000_000_000
  const DAY: int := 24 * 60 * MINUTE

  predicate PlainSpec(spec: string) {
    '|' !in spec && spec != "after"
  }

  /** The text parsers of the time package and the fixed offset of the configured zone. */
  datatype Clock = Clock(parseDuration: string -> Option<int>, parseClock: string -> Option<nat>, offset: int) {
    /**
     * parseClock yields the minute of the day of an "HH:MM"; neither parser accepts the separator of timer ids or
     * the word "after".
     */
    ghost predicate Valid() {
      && (forall s: string | parseClock(s).Some? :: parseClock(s).value < 24 * 60 && PlainSpec(s))
      && (forall s: string | parseDuration(s).Some? :: PlainSpec(s))
    }

    function ParseInterval(spec: string): (d: Option<int>)
      ensures d.Some? ==> d.value > 0
    {
      var d := parseDuration(spec);
      if d.Some? && d.value > 0 then d else None
    }

    function NextAt(spec: string, now: int): Option<int> {
      var hm := parseClock(spec);
      if hm.None? then None
      else
        var local := now + offset;
        var today := local - local % DAY + hm.value * MINUTE;
        Some((if today > local then today else today + DAY) - offset)
    }

    /** When a recurring timer fired at now runs again; None when its spec does not parse. */
    function Next(kind: Kind, spec: string, now: int): Option<int> {
      if kind == Every then
        var d := ParseInterval(spec);
        if d.Some? then Some(now + d.value) else None
      else NextAt(spec, now)
    }

    /** The zone's wall clock shows the given minute exactly at t. */
    predicate Shows(t: int, minute: nat) {
      (t + offset) % DAY == minute * MINUTE
    }

    /** A daily timer's next run is the first instant after now at which the wall clock shows its minute. */
    lemma NextAtIsFirst(spec: string, now: int)
      requires Valid() && parseClock(spec).Some?
      ensures var minute, next := parseClock(spec).value, NextAt(spec, now).value;
              && now < next <= now + DAY
              && Shows(next, minute)
              && forall t | now < t < next :: !Shows(t, minute)
    {
      var minute, next, local := parseClock(spec).value, NextAt(spec, now).value, now + offset;
      OffsetInDay(local - local % DAY, minute * MINUTE);
      OffsetInDay(local - local % DAY + DAY, minute * MINUTE);
      forall t | now < t < next ensures !Shows(t, minute) {
        if Shows(t, minute) {
          CongruentApart(t + offset, next + offset);
        }
      }
    }

    static lemma OffsetInDay(midnight: int, r: int)
      requires midnight % DAY == 0 && 0 <= r < DAY
      ensures (midnight + r) % DAY == r
    {
    }

    static lemma CongruentApart(a: int, b: int)
      requires a < b && a % DAY == b % DAY
      ensures a + DAY <= b
    {
    }

    lemma NextIsLater(kind: Kind, spec: string, now: int)
      requires Valid() && Next(kind, spec, now).Some?
      ensures Next(kind, spec, now).value > now
    {
      if kind != Every { NextAtIsFirst(spec, now); }
    }
  }

  // ---------- Heap order ----------

  function Parent(i: nat): nat {
    if i == 0 then 0 else (i - 1) / 2
  }

  predicate Below(h: seq<Timer>, i: nat)
    requires i < |h|
  {
    h[Parent(i)].nextRun <= h[i].nextRun
  }

  ghost predicate Ordered(h: seq<Timer>) {
    forall i: nat | i < |h| :: Below(h, i)
  }

  /** Ordered but for entry j, whose children could hang under its parent. */
  ghost predicate OrderedBut(h: seq<Timer>, j: nat) {
    && j < |h|
    && (forall i: nat | i < |h| && i != j :: Below(h, i))
    && (forall c: nat | 0 < c < |h| && Parent(c) == j :: h[Parent(j)].nextRun <= h[c].nextRun)
  }

  /** Heap order among the first n entries, for every parent from lo on. */
  ghost predicate OrderedFrom(h: seq<Timer>, lo: int, n: nat) {
    n <= |h| && forall c: nat | 0 < c < n && lo <= Parent(c) :: Below(h, c)
  }

  /** As OrderedFrom, but for the children of i, which could hang under i's parent. */
  ghost predicate OrderedFromBut(h: seq<Timer>, lo: int, n: nat, i: nat) {
    && n <= |h| && lo <= i
    && (forall c: nat | 0 < c < n && lo <= Parent(c) != i :: Below(h, c))
    && (i > lo ==>
          && lo <= Parent(i)
          && forall c: nat | 0 < c < n && Parent(c) == i :: h[Parent(i)].nextRun <= h[c].nextRun)
  }

  lemma {:induction false} RootIsEarliest(h: seq<Timer>, i: nat)
    requires Ordered(h) && i < |h|
    ensures h[0].nextRun <= h[i].nextRun
  {
    if i > 0 {
      assert Below(h, i);
      RootIsEarliest(h, Parent(i));
    }
  }

  lemma SwapUp(h: seq<Timer>, j: nat)
    requires OrderedBut(h, j) && !Below(h, j)
    ensures OrderedBut(Swap(h, Parent(j), j), Parent(j))
  {
    var p, r := Parent(j), Swap(h, Parent(j), j);
    forall i: nat | i < |h| && i != p ensures Below(r, i) {
      assert i != j ==> Below(h, i);
      assert Below(h, p) || p == j;
    }
    forall c: nat | 0 < c < |h| && Parent(c) == p ensures r[Parent(p)].nextRun <= r[c].nextRun {
      assert c != j ==> Below(h, c);
      assert Below(h, p);
    }
  }

  function EarlierChild(h: seq<Timer>, i: nat, n: nat): (j: nat)
    requires 2 * i + 1 < n <= |h|
    ensures i < j < n && Parent(j) == i
    ensures forall c: nat | 0 < c < n && Parent(c) == i :: h[j].nextRun <= h[c].nextRun
  {
    var j := 2 * i + 1;
    assert forall c: nat | 0 < c < n && Parent(c) == i :: c == j || c == j + 1;
    if j + 1 < n && h[j + 1].nextRun < h[j].nextRun then j + 1 else j
  }

  lemma SwapDown(h: seq<Timer>, lo: int, n: nat, i: nat, j: nat)
    requires OrderedFromBut(h, lo, n, i) && i < j < n && Parent(j) == i
    requires forall c: nat | 0 < c < n && Parent(c) == i :: h[j].nextRun <= h[c].nextRun
    requires h[j].nextRun < h[i].nextRun
    ensures OrderedFromBut(Swap(h, i, j), lo, n, j)
  {
    var r := Swap(h, i, j);
    forall c: nat | 0 < c < n && lo <= Parent(c) != j ensures Below(r, c) {
      if Parent(c) != i { assert Below(h, c); }
    }
    forall c: nat | 0 < c < n && Parent(c) == j ensures r[Parent(j)].nextRun <= r[c].nextRun {
      assert Below(h, c);
    }
  }

  lemma DownDone(h: seq<Timer>, lo: int, n: nat, i: nat)
    requires OrderedFromBut(h, lo, n, i)
    requires forall c: nat | 0 < c < n && Parent(c) == i :: h[i].nextRun <= h[c].nextRun
    ensures OrderedFrom(h, lo, n)
  {
    forall c: nat | 0 < c < n && lo <= Parent(c) ensures Below(h, c) {
    }
  }

  function Swap(h: seq<Timer>, i: nat, j: nat): (r: seq<Timer>)
    requires i < |h| && j < |h|
    ensures |r| == |h|
    ensures multiset(r) == multiset(h)
    ensures forall k | 0 <= k < |h| && k != i && k != j :: r[k] == h[k]
    ensures r[i] == h[j] && r[j] == h[i]
  {
    h[i := h[j]][j := h[i]]
  }

  /** The entries that are due, and those that are not. */
  function Due(h: seq<Timer>, now: int): (due: multiset<Timer>)
    ensures forall t :: due[t] == if t.nextRun <= now then multiset(h)[t] else 0
  {
    if h == [] then multiset{}
    else
      assert h == [h[0]] + h[1..];
      (if h[0].nextRun <= now then multiset{h[0]} else multiset{}) + Due(h[1..], now)
  }

  /** What firing leaves of a timer: its next deadline, or nothing for a one-shot or an unparseable spec. */
  function Rearmed(clock: Clock, t: Timer, now: int): seq<Timer> {
    if t.kind != After && clock.Next(t.kind, t.spec, now).Some?
    then [t.(nextRun := clock.Next(t.kind, t.spec, now).value)]
    else []
  }

  function AllRearmed(clock: Clock, ts: seq<Timer>, now: int): seq<Timer> {
    if ts == [] then [] else AllRearmed(clock, ts[..|ts| - 1], now) + Rearmed(clock, ts[|ts| - 1], now)
  }

  /** The fire a timer delivers: none when it is recurring and its spec no longer parses. */
  function FireOf(clock: Clock, t: Timer, now: int): seq<(string, string)> {
    if t.kind == After || clock.Next(t.kind, t.spec, now).Some? then [(t.scriptId, t.id)] else []
  }

  function Fires(clock: Clock, ts: seq<Timer>, now: int): seq<(string, string)> {
    if ts == [] then []
    else Fires(clock, ts[..|ts| - 1], now) + FireOf(clock, ts[|ts| - 1], now)
  }

  /** What registration checks; a one-shot's spec is not looked at again. */
  predicate Parses(clock: Clock, t: Timer) {
    match t.kind
    case After => true
    case Every => clock.ParseInterval(t.spec).Some?
    case At => clock.parseClock(t.spec).Some?
  }

  ghost predicate AllParse(clock: Clock, m: multiset<Timer>) {
    forall t | t in m :: Parses(clock, t)
  }

  /** A popped timer is reported, and a recurring one rescheduled, exactly when its spec parses. */
  lemma FiresIffParses(clock: Clock, t: Timer, now: int)
    ensures FireOf(clock, t, now) == if Parses(clock, t) then [(t.scriptId, t.id)] else []
    ensures Rearmed(clock, t, now) != [] <==> t.kind != After && Parses(clock, t)
    ensures forall u | u in Rearmed(clock, t, now) :: Parses(clock, u)
  {
  }

  /** Every one of ts reported once, in order. */
  function Reports(ts: seq<Timer>): (r: seq<(string, string)>)
    ensures |r| == |ts| && forall i | 0 <= i < |ts| :: r[i] == (ts[i].scriptId, ts[i].id)
  {
    seq(|ts|, i requires 0 <= i < |ts| => (ts[i].scriptId, ts[i].id))
  }

  /** The branch that drops a timer is dead: timers that parse are all reported. */
  lemma {:induction false} ParsedTimersFire(clock: Clock, ts: seq<Timer>, now: int)
    requires forall t | t in ts :: Parses(clock, t)
    ensures Fires(clock, ts, now) == Reports(ts)
  {
    if ts != [] {
      var rest, last := ts[..|ts| - 1], ts[|ts| - 1];
      assert ts == rest + [last];
      ParsedTimersFire(clock, rest, now);
      FiresIffParses(clock, last, now);
      assert Reports(ts) == Reports(rest) + [(last.scriptId, last.id)];
    }
  }

  /** The timers table after firing ts in order. */
  function RowsAfter(clock: Clock, rows: map<string, Row>, ts: seq<Timer>, now: int): map<string, Row> {
    if ts == [] then rows
    else
      var before := RowsAfter(clock, rows, ts[..|ts| - 1], now);
      FiredRow(clock, before, ts[|ts| - 1], now)
  }

  function FiredRow(clock: Clock, rows: map<string, Row>, t: Timer, now: int): map<string, Row> {
    if t.kind == After then rows - {t.id}
    else
      var next := clock.Next(t.kind, t.spec, now);
      if next.None? || t.id !in rows then rows
      else rows[t.id := rows[t.id].(lastRun := Some(now), nextRun := next.value)]
  }

  /** Each heap entry is alone with its id, and its row carries its deadline. */
  ghost predicate Backed(m: multiset<Timer>, rows: map<string, Row>) {
    forall t | t in m :: m[t] == 1 && t.id in rows && RowOf(rows[t.id], t)
  }

  predicate RowOf(row: Row, t: Timer) {
    row.scriptId == t.scriptId && row.kind == t.kind && row.spec == t.spec && row.nextRun == t.nextRun
  }

  ghost predicate ByDeadline(ts: seq<Timer>) {
    forall i, j | 0 <= i < j < |ts| :: ts[i].nextRun <= ts[j].nextRun
  }

  function OtherScripts(h: seq<Timer>, scriptId: string): seq<Timer> {
    if h == [] then []
    else OtherScripts(h[..|h| - 1], scriptId) + if h[|h| - 1].scriptId != scriptId then [h[|h| - 1]] else []
  }

  lemma BackedFire(clock: Clock, m: multiset<Timer>, rows: map<string, Row>, t: Timer, now: int)
    requires Backed(m + multiset{t}, rows)
    ensures Backed(m + multiset(Rearmed(clock, t, now)), FiredRow(clock, rows, t, now))
    ensures t.id in rows
  {
    var all := m + multiset{t};
    assert t in all && all[t] == 1;
    forall u | u in m ensures u in all && u.id != t.id && m[u] == 1 {
    }
  }

  lemma BackedFilter(h: seq<Timer>, rows: map<string, Row>, scriptId: string)
    requires Backed(multiset(h), rows)
    ensures Backed(multiset(OtherScripts(h, scriptId)), WithoutAfters(rows, scriptId))
  {
    OtherScriptsIs(h, scriptId);
    var kept := multiset(OtherScripts(h, scriptId));
    forall t | t in kept ensures t in multiset(h) && kept[t] == multiset(h)[t] && t.scriptId != scriptId {
    }
  }

  lemma {:induction false} OtherScriptsIs(h: seq<Timer>, scriptId: string)
    ensures forall t :: multiset(OtherScripts(h, scriptId))[t] == if t.scriptId != scriptId then multiset(h)[t] else 0
  {
    if h != [] {
      OtherScriptsIs(h[..|h| - 1], scriptId);
      assert h == h[..|h| - 1] + [h[|h| - 1]];
    }
  }

  lemma OthersParse(clock: Clock, h: seq<Timer>, scriptId: string)
    requires AllParse(clock, multiset(h))
    ensures AllParse(clock, multiset(OtherScripts(h, scriptId)))
  {
    OtherScriptsIs(h, scriptId);
    forall t | t in multiset(OtherScripts(h, scriptId)) ensures Parses(clock, t) { assert t in multiset(h); }
  }

  /** The table without a script's one-shot rows. */
  function WithoutAfters(rows: map<string, Row>, scriptId: string): map<string, Row> {
    map id | id in rows && !(rows[id].scriptId == scriptId && rows[id].kind == After) :: rows[id]
  }

  lemma RearmedIsLater(clock: Clock, t: Timer, now: int)
    requires clock.Valid()
    ensures forall u | u in Rearmed(clock, t, now) :: u.nextRun > now
  {
    if Rearmed(clock, t, now) != [] { clock.NextIsLater(t.kind, t.spec, now); }
  }

  lemma DueStep(h: seq<Timer>, t: Timer, h': seq<Timer>, back: seq<Timer>, now: int)
    requires multiset(h') + multiset{t} == multiset(h) + multiset(back)
    requires t.nextRun <= now && forall u | u in back :: u.nextRun > now
    ensures Due(h, now) == Due(h', now) + multiset{t}
  {
    forall u: Timer ensures Due(h, now)[u] == (Due(h', now) + multiset{t})[u] {
      assert (multiset(h') + multiset{t})[u] == (multiset(h) + multiset(back))[u];
      assert u.nextRun <= now ==> u !in multiset(back);
    }
  }

  lemma RootIsEarliestOfAll(h: seq<Timer>)
    requires Ordered(h) && h != []
    ensures forall t | t in multiset(h) :: h[0].nextRun <= t.nextRun
  {
    forall t | t in multiset(h) ensures h[0].nextRun <= t.nextRun {
      var i: nat :| i < |h| && h[i] == t;
      RootIsEarliest(h, i);
    }
  }

  lemma FiringSnoc(clock: Clock, rows: map<string, Row>, fired: seq<(string, string)>, ts: seq<Timer>, t: Timer,
      now: int)
    ensures AllRearmed(clock, ts + [t], now) == AllRearmed(clock, ts, now) + Rearmed(clock, t, now)
    ensures fired + Fires(clock, ts + [t], now) == fired + Fires(clock, ts, now) + FireOf(clock, t, now)
    ensures RowsAfter(clock, rows, ts + [t], now) == FiredRow(clock, RowsAfter(clock, rows, ts, now), t, now)
  {
    assert (ts + [t])[..|ts|] == ts;
  }

  /** The heap, the timers popped so far and those pushed back account for every timer of the old heap. */
  ghost predicate Accounts(was: seq<Timer>, h: seq<Timer>, popped: seq<Timer>, back: seq<Timer>, now: int) {
    && multiset(h) + multiset(popped) == multiset(was) + multiset(back)
    && Due(was, now) == Due(h, now) + multiset(popped)
    && InFront(popped, h, now)
  }

  /** Popped in deadline order, all due, and ahead of whatever is left. */
  ghost predicate InFront(popped: seq<Timer>, h: seq<Timer>, now: int) {
    && ByDeadline(popped)
    && (forall p | p in popped :: p.nextRun <= now)
    && (forall p, t | p in popped && t in multiset(h) :: p.nextRun <= t.nextRun)
  }

  lemma InFrontStep(popped: seq<Timer>, h: seq<Timer>, now: int, t: Timer, h': seq<Timer>)
    requires InFront(popped, h, now)
    requires t in multiset(h) && t.nextRun <= now && forall u | u in multiset(h) :: t.nextRun <= u.nextRun
    requires forall u | u in multiset(h') :: u in multiset(h) || u.nextRun > now
    ensures InFront(popped + [t], h', now)
  {
  }

  lemma MultisetStep(was: multiset<Timer>, h: multiset<Timer>, popped: multiset<Timer>, back: multiset<Timer>,
                     t: multiset<Timer>, h': multiset<Timer>, again: multiset<Timer>)
    requires h + popped == was + back && h' + t == h + again
    ensures h' + (popped + t) == was + (back + again)
  {
    forall u: Timer ensures (h' + (popped + t))[u] == (was + (back + again))[u] {
      assert (h + popped)[u] == (was + back)[u] && (h' + t)[u] == (h + again)[u];
    }
  }

  lemma AccountsStep(was: seq<Timer>, h: seq<Timer>, popped: seq<Timer>, back: seq<Timer>, now: int,
                     t: Timer, h': seq<Timer>, again: seq<Timer>)
    requires Accounts(was, h, popped, back, now)
    requires t in multiset(h) && t.nextRun <= now && forall u | u in multiset(h) :: t.nextRun <= u.nextRun
    requires multiset(h') + multiset{t} == multiset(h) + multiset(again) && forall u | u in again :: u.nextRun > now
    ensures Accounts(was, h', popped + [t], back + again, now)
    ensures |Due(h', now)| < |Due(h, now)|
  {
    DueStep(h, t, h', again, now);
    MultisetStep(multiset(was), multiset(h), multiset(popped), multiset(back), multiset{t}, multiset(h'),
        multiset(again));
    assert multiset(popped + [t]) == multiset(popped) + multiset{t};
    assert Due(h', now) + multiset(popped + [t]) == Due(h, now) + multiset(popped);
    forall u | u in multiset(h') ensures u in multiset(h) || u.nextRun > now {
      assert (multiset(h) + multiset(again))[u] > 0;
    }
    InFrontStep(popped, h, now, t, h');
  }

  // ---------- Timer ids ----------

  function KindText(kind: Kind): string {
    match kind
    case Every => "every"
    case At => "at"
    case After => "after"
  }

  /** The id of a recurring timer, the same on every load of its script. */
  function StableId(scriptId: string, kind: Kind, spec: string, n: nat): string {
    scriptId + "|" + KindText(kind) + "|" + spec + "|" + Decimal(n)
  }

  function AfterId(scriptId: string, token: string): string {
    scriptId + "|" + KindText(After) + "|" + token
  }

  ghost predicate IsIdOf(id: string, scriptId: string, kind: Kind, spec: string) {
    if kind == After then exists token | '|' !in token :: id == AfterId(scriptId, token)
    else PlainSpec(spec) && exists n: nat :: id == StableId(scriptId, kind, spec, n)
  }

  lemma LastChar(a: string, x: string)
    ensures var s := a + "|" + x; s[|s| - 1] == if x == "" then '|' else x[|x| - 1]
    ensures x != "" ==> (a + "|" + x)[..|a| + |x|] == a + "|" + x[..|x| - 1]
  {
  }

  /** What follows the last separator is determined, and so is what precedes it. */
  lemma {:induction false} LastBar(a: string, x: string, b: string, y: string)
    requires '|' !in x && '|' !in y && a + "|" + x == b + "|" + y
    ensures a == b && x == y
  {
    LastChar(a, x);
    LastChar(b, y);
    assert |a| + |x| == |b| + |y|;
    if x != "" && y != "" {
      LastBar(a, x[..|x| - 1], b, y[..|y| - 1]);
      assert x == x[..|x| - 1] + [x[|x| - 1]] && y == y[..|y| - 1] + [y[|y| - 1]];
    } else {
      assert x == y == "";
      assert a == (a + "|" + x)[..|a|] && b == (b + "|" + y)[..|b|];
    }
  }

  lemma DecimalHasNoBar(n: nat)
    ensures '|' !in Decimal(n)
  {
    DecimalIs(n);
    forall k | 0 <= k < |Decimal(n)| ensures Decimal(n)[k] != '|' { assert IsDigit(Decimal(n)[k]); }
  }

  lemma KindTextIs(k: Kind, l: Kind)
    ensures '|' !in KindText(k) && (KindText(k) == KindText(l) ==> k == l)
  {
    if k != l {
      assert KindText(k)[0] != KindText(l)[0] || |KindText(k)| != |KindText(l)|;
    }
  }

  /** Two recurring timers have one id only if they are one script's, of one kind, spec and number. */
  lemma StableIdsDiffer(s1: string, k1: Kind, p1: string, n1: nat, s2: string, k2: Kind, p2: string, n2: nat)
    requires PlainSpec(p1) && PlainSpec(p2) && StableId(s1, k1, p1, n1) == StableId(s2, k2, p2, n2)
    ensures s1 == s2 && k1 == k2 && p1 == p2 && n1 == n2
  {
    DecimalHasNoBar(n1);
    DecimalHasNoBar(n2);
    LastBar(s1 + "|" + KindText(k1) + "|" + p1, Decimal(n1), s2 + "|" + KindText(k2) + "|" + p2, Decimal(n2));
    DecimalIs(n1);
    DecimalIs(n2);
    LastBar(s1 + "|" + KindText(k1), p1, s2 + "|" + KindText(k2), p2);
    KindTextIs(k1, k2);
    KindTextIs(k2, k1);
    LastBar(s1, KindText(k1), s2, KindText(k2));
  }

  /** And no one-shot has the id of a recurring timer. */
  lemma OneShotIdsDiffer(s1: string, token: string, s2: string, k2: Kind, p2: string, n2: nat)
    requires '|' !in token && PlainSpec(p2)
    ensures AfterId(s1, token) != StableId(s2, k2, p2, n2)
  {
    if AfterId(s1, token) == StableId(s2, k2, p2, n2) {
      DecimalHasNoBar(n2);
      LastBar(s1 + "|" + KindText(After), token, s2 + "|" + KindText(k2) + "|" + p2, Decimal(n2));
      KindTextIs(After, k2);
      LastBar(s1, KindText(After), s2 + "|" + KindText(k2), p2);
    }
  }

  /** Every row is stored under an id of its own timer. */
  ghost predicate Named(rows: map<string, Row>) {
    forall id | id in rows :: IsIdOf(id, rows[id].scriptId, rows[id].kind, rows[id].spec)
  }

  /** A row found under a recurring timer's id is that timer's own, from an earlier load. */
  lemma StoredRowIsOwn(rows: map<string, Row>, scriptId: string, kind: Kind, spec: string, n: nat)
    requires Named(rows) && kind != After && PlainSpec(spec) && StableId(scriptId, kind, spec, n) in rows
    ensures var row := rows[StableId(scriptId, kind, spec, n)];
            row.scriptId == scriptId && row.kind == kind && row.spec == spec
  {
    var id := StableId(scriptId, kind, spec, n);
    var row := rows[id];
    assert IsIdOf(id, row.scriptId, row.kind, row.spec);
    if row.kind == After {
      var token :| '|' !in token && id == AfterId(row.scriptId, token);
      OneShotIdsDiffer(row.scriptId, token, scriptId, kind, spec, n);
    } else {
      var m: nat :| id == StableId(row.scriptId, row.kind, row.spec, m);
      StableIdsDiffer(row.scriptId, row.kind, row.spec, m, scriptId, kind, spec, n);
    }
  }

  // ---------- Heap and table ----------

  /** INSERT OR IGNORE: a row already there wins. */
  function Stored(rows: map<string, Row>, t: Timer): map<string, Row> {
    if t.id in rows then rows else rows[t.id := Row(t.scriptId, t.kind, t.spec, None, t.nextRun)]
  }

  /** The row a new timer finds, if any, is its own. */
  predicate FindsOwnRow(rows: map<string, Row>, t: Timer) {
    t.id in rows ==> rows[t.id].scriptId == t.scriptId && rows[t.id].kind == t.kind && rows[t.id].spec == t.spec
  }

  ghost predicate NewTo(h: seq<Timer>, id: string) {
    forall t | t in multiset(h) :: t.id != id
  }

  ghost predicate DistinctIds(ts: seq<Timer>) {
    forall i, j | 0 <= i < j < |ts| :: ts[i].id != ts[j].id
  }

  lemma BackedHaveDistinctIds(ts: seq<Timer>, rows: map<string, Row>)
    requires Backed(multiset(ts), rows)
    ensures DistinctIds(ts)
  {
    forall i, j | 0 <= i < j < |ts| ensures ts[i].id != ts[j].id {
      var before, after := ts[..j], ts[j..];
      assert ts == before + after && ts[i] == before[i] && ts[j] == after[0];
      assert ts[i] in multiset(before) && ts[j] in multiset(after);
    }
  }

  lemma {:induction false} ReportsAre(ts: seq<Timer>)
    ensures forall t | t in ts :: (t.scriptId, t.id) in Reports(ts)
    ensures forall x | x in Reports(ts) :: exists t :: t in ts && x == (t.scriptId, t.id)
    ensures DistinctIds(ts) ==> NoDup(Reports(ts))
  {
    forall t | t in ts ensures (t.scriptId, t.id) in Reports(ts) {
      var i :| 0 <= i < |ts| && ts[i] == t;
      assert Reports(ts)[i] == (t.scriptId, t.id);
    }
    forall x | x in Reports(ts) ensures exists t :: t in ts && x == (t.scriptId, t.id) {
      var i :| 0 <= i < |ts| && Reports(ts)[i] == x;
      assert ts[i] in ts;
    }
  }

  lemma PoppedAreDue(h: seq<Timer>, rows: map<string, Row>, popped: seq<Timer>, now: int)
    requires Backed(multiset(h), rows) && multiset(popped) == Due(h, now)
    ensures forall t :: t in popped <==> t in multiset(h) && t.nextRun <= now
    ensures DistinctIds(popped)
  {
    forall t ensures t in popped <==> t in multiset(h) && t.nextRun <= now {
      assert t in popped <==> t in multiset(popped);
    }
    forall t | t in multiset(popped) ensures multiset(popped)[t] == 1 { assert t in multiset(h); }
    BackedHaveDistinctIds(popped, rows);
  }

  /** With heap and table in agreement, a pass reports each due timer once and nothing else. */
  lemma EachDueReportedOnce(h: seq<Timer>, rows: map<string, Row>, popped: seq<Timer>, now: int)
    requires Backed(multiset(h), rows) && multiset(popped) == Due(h, now)
    ensures NoDup(Reports(popped))
    ensures forall t | t in multiset(h) :: (t.scriptId, t.id) in Reports(popped) <==> t.nextRun <= now
    ensures forall x | x in Reports(popped) ::
              exists t :: t in multiset(h) && t.nextRun <= now && x == (t.scriptId, t.id)
  {
    PoppedAreDue(h, rows, popped, now);
    ReportsAre(popped);
    forall t | t in multiset(h) && (t.scriptId, t.id) in Reports(popped) ensures t.nextRun <= now {
      var u :| u in popped && (t.scriptId, t.id) == (u.scriptId, u.id);
      assert Backed(multiset(h), rows) && RowOf(rows[t.id], t) && RowOf(rows[u.id], u);
    }
  }

  /** Pushing a timer backed by its row keeps the agreement. */
  lemma BackedInsert(h: seq<Timer>, rows: map<string, Row>, t: Timer)
    requires Backed(multiset(h), rows) && Named(rows)
    requires NewTo(h, t.id) && FindsOwnRow(rows, t) && IsIdOf(t.id, t.scriptId, t.kind, t.spec)
    ensures var after := Stored(rows, t);
            Named(after) && Backed(multiset(h) + multiset{t.(nextRun := after[t.id].nextRun)}, after)
  {
    var after := Stored(rows, t);
    var pushed := t.(nextRun := after[t.id].nextRun);
    forall u | u in multiset(h) + multiset{pushed}
      ensures (multiset(h) + multiset{pushed})[u] == 1 && u.id in after && RowOf(after[u.id], u)
    {
      assert u in multiset(h) || u == pushed;
    }
  }

  // ---------- What firing, stopping and reloading do to a timer ----------

  /** A clock so far ahead of UTC shows a minute of the day exactly, everything in nanoseconds. */
  predicate OnMinute(t: int, offset: int, minute: nat) {
    (t + offset) % 86_400_000_000_000 == minute * 60_000_000_000
  }

  ghost predicate FirstAfter(next: int, now: int, offset: int, minute: nat) {
    && now < next && OnMinute(next, offset, minute)
    && forall t | now < t < next :: !OnMinute(t, offset, minute)
  }

  /** An interval timer that fires at now is due again its interval later; one whose interval is bad is dropped. */
  lemma RearmedEvery(clock: Clock, t: Timer, now: int)
    requires t.kind == Every
    ensures var d := clock.parseDuration(t.spec);
            if d.Some? && d.value > 0
            then
              Rearmed(clock, t, now) == [t.(nextRun := now + d.value)]
              && FireOf(clock, t, now) == [(t.scriptId, t.id)]
            else Rearmed(clock, t, now) == [] && FireOf(clock, t, now) == []
  {
  }

  /** A daily one is due again when the clock next shows its time; one whose time is bad is dropped. */
  lemma RearmedAt(clock: Clock, t: Timer, now: int)
    requires t.kind == At && clock.Valid()
    ensures if clock.parseClock(t.spec).Some? then
              && |Rearmed(clock, t, now)| == 1 && FireOf(clock, t, now) == [(t.scriptId, t.id)]
              && Rearmed(clock, t, now)[0] == t.(nextRun := Rearmed(clock, t, now)[0].nextRun)
              && FirstAfter(Rearmed(clock, t, now)[0].nextRun, now, clock.offset, clock.parseClock(t.spec).value)
            else Rearmed(clock, t, now) == [] && FireOf(clock, t, now) == []
  {
    if clock.parseClock(t.spec).Some? {
      clock.NextAtIsFirst(t.spec, now);
      var next := clock.NextAt(t.spec, now).value;
      forall u | now < u < next ensures !OnMinute(u, clock.offset, clock.parseClock(t.spec).value) {
        assert !clock.Shows(u, clock.parseClock(t.spec).value);
      }
    }
  }

  /** A one-shot is reported and gone. */
  lemma RearmedAfter(clock: Clock, t: Timer, now: int)
    requires t.kind == After
    ensures Rearmed(clock, t, now) == [] && FireOf(clock, t, now) == [(t.scriptId, t.id)]
  {
  }

  lemma {:induction false} RearmedIsAmongAll(clock: Clock, ts: seq<Timer>, t: Timer, now: int)
    requires t in ts && Rearmed(clock, t, now) != []
    ensures Rearmed(clock, t, now)[0] in AllRearmed(clock, ts, now)
  {
    var rest, last := ts[..|ts| - 1], ts[|ts| - 1];
    if t != last {
      RearmedIsAmongAll(clock, rest, t, now);
    }
  }

  /** A pass at now puts t back: what it is due for next, and when. */
  ghost predicate BackAgain(clock: Clock, h: seq<Timer>, t: Timer, now: int) {
    match t.kind
    case After => true
    case Every =>
      var d := clock.parseDuration(t.spec);
      d.Some? && d.value > 0 && t.(nextRun := now + d.value) in multiset(h)
    case At =>
      var minute := clock.parseClock(t.spec);
      minute.Some? && exists next ::
        FirstAfter(next, now, clock.offset, minute.value) && t.(nextRun := next) in multiset(h)
  }

  lemma ComesBack(clock: Clock, h: seq<Timer>, was: seq<Timer>, popped: seq<Timer>, t: Timer, now: int)
    requires clock.Valid() && t in popped && Parses(clock, t)
    requires multiset(h) + multiset(popped) == multiset(was) + multiset(AllRearmed(clock, popped, now))
    requires multiset(popped) <= multiset(was)
    ensures BackAgain(clock, h, t, now)
  {
    match t.kind {
      case After =>
      case Every => RearmedEvery(clock, t, now); PutBack(clock, h, was, popped, t, now);
      case At => RearmedAt(clock, t, now); PutBack(clock, h, was, popped, t, now);
    }
  }

  lemma PoppedComeBack(clock: Clock, h: seq<Timer>, was: seq<Timer>, popped: seq<Timer>, now: int)
    requires clock.Valid() && forall t | t in popped :: Parses(clock, t)
    requires multiset(h) + multiset(popped) == multiset(was) + multiset(AllRearmed(clock, popped, now))
    requires multiset(popped) == Due(was, now)
    ensures forall t | t in popped :: BackAgain(clock, h, t, now)
  {
    forall u: Timer ensures Due(was, now)[u] <= multiset(was)[u] {
    }
    forall t | t in popped ensures BackAgain(clock, h, t, now) {
      ComesBack(clock, h, was, popped, t, now);
    }
  }

  lemma PutBack(clock: Clock, h: seq<Timer>, was: seq<Timer>, popped: seq<Timer>, t: Timer, now: int)
    requires t in popped && Rearmed(clock, t, now) != [] && multiset(popped) <= multiset(was)
    requires multiset(h) + multiset(popped) == multiset(was) + multiset(AllRearmed(clock, popped, now))
    ensures Rearmed(clock, t, now)[0] in multiset(h)
  {
    RearmedIsAmongAll(clock, popped, t, now);
    var u := Rearmed(clock, t, now)[0];
    assert u in multiset(AllRearmed(clock, popped, now));
    assert (multiset(h) + multiset(popped))[u] == (multiset(was) + multiset(AllRearmed(clock, popped, now)))[u];
  }

  /** The rows of timers that did not fire stay; */
  lemma {:induction false} OtherRowsStay(clock: Clock, rows: map<string, Row>, ts: seq<Timer>, now: int, id: string)
    requires forall t | t in ts :: t.id != id
    ensures id in RowsAfter(clock, rows, ts, now) <==> id in rows
    ensures id in rows ==> RowsAfter(clock, rows, ts, now)[id] == rows[id]
  {
    if ts != [] {
      assert ts[|ts| - 1] in ts;
      OtherRowsStay(clock, rows, ts[..|ts| - 1], now, id);
    }
  }

  /** the row of one that did is gone, or says that it ran now and when it is due again. */
  lemma {:induction false} FiredRowIs(clock: Clock, rows: map<string, Row>, ts: seq<Timer>, now: int, k: nat)
    requires k < |ts| && DistinctIds(ts) && ts[k].id in rows && Parses(clock, ts[k])
    ensures var t, after := ts[k], RowsAfter(clock, rows, ts, now);
            if t.kind == After then t.id !in after
            else
              && t.id in after && after[t.id] == rows[t.id].(lastRun := Some(now), nextRun := after[t.id].nextRun)
              && Rearmed(clock, t, now) == [t.(nextRun := after[t.id].nextRun)]
  {
    var rest, last := ts[..|ts| - 1], ts[|ts| - 1];
    if k < |rest| {
      assert rest[k] == ts[k] && last.id != ts[k].id;
      FiredRowIs(clock, rows, rest, now, k);
    } else {
      OtherRowsStay(clock, rows, rest, now, last.id);
    }
  }

  /** Stopping a script forgets its one-shots' rows; every recurring timer's row and every other script's stays. */
  lemma StopKeepsRecurringRows(rows: map<string, Row>, scriptId: string, id: string)
    ensures var after := WithoutAfters(rows, scriptId);
            && (id in after <==>
                id in rows && (rows[id].kind.Every? || rows[id].kind.At? || rows[id].scriptId != scriptId))
            && (id in after ==> after[id] == rows[id])
  {
  }

  /** A registration under a new id writes the timer's row; under an old one the row already there stays as it is. */
  lemma RegistrationKeepsOldRow(rows: map<string, Row>, t: Timer)
    ensures t.id in rows ==> Stored(rows, t) == rows
    ensures t.id !in rows ==>
              && Stored(rows, t).Keys == rows.Keys + {t.id}
              && Stored(rows, t)[t.id] == Row(t.scriptId, t.kind, t.spec, None, t.nextRun)
              && forall id | id in rows :: Stored(rows, t)[id] == rows[id]
  {
  }

  /** So a recurring timer keeps its row, and with it a missed deadline, across any stop and reload. */
  lemma ReloadKeepsDeadline(rows: map<string, Row>, scriptId: string, kind: Kind, spec: string, n: nat, next: int)
    requires Named(rows) && !kind.After? && PlainSpec(spec) && StableId(scriptId, kind, spec, n) in rows
    ensures var id := StableId(scriptId, kind, spec, n);
            var after := Stored(WithoutAfters(rows, scriptId), Timer(id, scriptId, kind, spec, next));
            id in after && after[id] == rows[id] && after == WithoutAfters(rows, scriptId)
  {
    StoredRowIsOwn(rows, scriptId, kind, spec, n);
  }

  /** Ids as they are written. */
  lemma IdsAre(scriptId: string, spec: string, n: nat, token: string)
    ensures StableId(scriptId, Every, spec, n) == scriptId + "|every|" + spec + "|" + Decimal(n)
    ensures StableId(scriptId, At, spec, n) == scriptId + "|at|" + spec + "|" + Decimal(n)
    ensures AfterId(scriptId, token) == scriptId + "|after|" + token
  {
  }

  class Scheduler {
    const clock: Clock
    var heap: seq<Timer>
    var rows: map<string, Row>
    var fired: seq<(string, string)>

    method Up(start: nat)
      requires OrderedBut(heap, start)
      modifies `heap
      ensures Ordered(heap) && multiset(heap) == multiset(old(heap))
    {
      var j := start;
      while true
        invariant OrderedBut(heap, j) && multiset(heap) == multiset(old(heap))
        decreases j
      {
        var i := Parent(j);
        if i == j || heap[i].nextRun <= heap[j].nextRun {
          return;
        }
        SwapUp(heap, j);
        heap := Swap(heap, i, j);
        j := i;
      }
    }

    method Down(start: nat, n: nat)
      requires OrderedFrom(heap, start + 1, n)
      modifies `heap
      ensures |heap| == |old(heap)| && multiset(heap) == multiset(old(heap))
      ensures OrderedFrom(heap, start, n)
      ensures forall k | n <= k < |heap| :: heap[k] == old(heap)[k]
    {
      var i := start;
      while 2 * i + 1 < n
        invariant |heap| == |old(heap)| && multiset(heap) == multiset(old(heap))
        invariant OrderedFromBut(heap, start, n, i)
        invariant forall k | n <= k < |heap| :: heap[k] == old(heap)[k]
        decreases n - i
      {
        var j := EarlierChild(heap, i, n);
        if heap[i].nextRun <= heap[j].nextRun {
          DownDone(heap, start, n, i);
          return;
        }
        SwapDown(heap, start, n, i, j);
        heap := Swap(heap, i, j);
        i := j;
      }
      DownDone(heap, start, n, i);
    }

    method Push(t: Timer)
      requires Ordered(heap)
      modifies `heap
      ensures Ordered(heap) && multiset(heap) == multiset(old(heap)) + multiset{t}
    {
      heap := heap + [t];
      assert forall i: nat | i < |old(heap)| :: Below(old(heap), i) ==> Below(heap, i);
      Up(|heap| - 1);
    }

    method Pop() returns (t: Timer)
      requires Ordered(heap) && heap != []
      modifies `heap
      ensures Ordered(heap) && multiset(heap) + multiset{t} == multiset(old(heap))
      ensures t == old(heap)[0]
    {
      var n := |heap| - 1;
      heap := Swap(heap, 0, n);
      assert forall c: nat | 0 < c < n && 1 <= Parent(c) :: Below(old(heap), c) ==> Below(heap, c);
      Down(0, n);
      t := heap[n];
      assert heap == heap[..n] + [t];
      assert forall c: nat | c < n :: Below(heap, c) ==> Below(heap[..n], c);
      heap := heap[..n];
    }

    method Init()
      modifies `heap
      ensures Ordered(heap) && multiset(heap) == multiset(old(heap))
    {
      var n := |heap|;
      var i := n / 2 - 1;
      while i >= 0
        invariant -1 <= i <= n / 2 - 1
        invariant n == |heap| && OrderedFrom(heap, i + 1, n) && multiset(heap) == multiset(old(heap))
      {
        Down(i, n);
        i := i - 1;
      }
      assert forall c: nat | 0 < c < n :: Below(heap, c);
    }

    ghost predicate Valid()
      reads this
    {
      clock.Valid() && Ordered(heap) && AllParse(clock, multiset(heap))
    }

    /** Heap and table agree: each heap entry is alone with its id, and its row carries its deadline. */
    ghost predicate Agrees()
      reads this
    {
      Backed(multiset(heap), rows) && Named(rows)
    }

    constructor (clock: Clock, rows: map<string, Row>)
      requires clock.Valid()
      ensures Valid() && this.clock == clock && this.rows == rows && heap == [] && fired == []
    {
      this.clock, this.rows, heap, fired := clock, rows, [], [];
    }

    /** An interval timer's id is the same on every load, so a deadline missed while down is still due. */
    method RegisterEvery(scriptId: string, spec: string, n: nat, now: int) returns (id: Option<string>)
      requires Valid()
      modifies this
      ensures Valid() && fired == old(fired)
      ensures id.Some? <==> clock.ParseInterval(spec).Some?
      ensures id.None? ==> heap == old(heap) && rows == old(rows)
      ensures id.Some? ==>
                var next := now + clock.ParseInterval(spec).value;
                var t := Timer(StableId(scriptId, Every, spec, n), scriptId, Every, spec, next);
                id.value == t.id && Registered(t, old(heap), old(rows))
                && (old(Agrees()) && NewTo(old(heap), t.id) ==> Agrees())
    {
      var d := clock.ParseInterval(spec);
      if d.None? {
        return None;
      }
      id := Some(StableId(scriptId, Every, spec, n));
      if Named(rows) && id.value in rows { StoredRowIsOwn(rows, scriptId, Every, spec, n); }
      Insert(Timer(id.value, scriptId, Every, spec, now + d.value));
    }

    method RegisterAt(scriptId: string, spec: string, n: nat, now: int) returns (id: Option<string>)
      requires Valid()
      modifies this
      ensures Valid() && fired == old(fired)
      ensures id.Some? <==> clock.NextAt(spec, now).Some?
      ensures id.None? ==> heap == old(heap) && rows == old(rows)
      ensures id.Some? ==>
                var t := Timer(StableId(scriptId, At, spec, n), scriptId, At, spec, clock.NextAt(spec, now).value);
                id.value == t.id && Registered(t, old(heap), old(rows))
                && (old(Agrees()) && NewTo(old(heap), t.id) ==> Agrees())
    {
      var next := clock.NextAt(spec, now);
      if next.None? {
        return None;
      }
      id := Some(StableId(scriptId, At, spec, n));
      if Named(rows) && id.value in rows { StoredRowIsOwn(rows, scriptId, At, spec, n); }
      Insert(Timer(id.value, scriptId, At, spec, next.value));
    }

    /** A one-shot's id carries a random token. */
    method RegisterAfter(scriptId: string, spec: string, token: string, now: int) returns (id: Option<string>)
      requires Valid() && '|' !in token
      modifies this
      ensures Valid() && fired == old(fired)
      ensures id.Some? <==> clock.ParseInterval(spec).Some?
      ensures id.None? ==> heap == old(heap) && rows == old(rows)
      ensures id.Some? ==>
                var t := Timer(AfterId(scriptId, token), scriptId, After, spec, now + clock.ParseInterval(spec).value);
                id.value == t.id && Registered(t, old(heap), old(rows))
                && (old(Agrees()) && t.id !in old(rows) ==> Agrees())
    {
      var d := clock.ParseInterval(spec);
      if d.None? {
        return None;
      }
      id := Some(AfterId(scriptId, token));
      Insert(Timer(id.value, scriptId, After, spec, now + d.value));
    }

    /** The timer is in the heap, with the deadline its row holds. */
    ghost predicate Registered(t: Timer, wasHeap: seq<Timer>, wasRows: map<string, Row>)
      reads this
    {
      && rows == Stored(wasRows, t)
      && multiset(heap) == multiset(wasHeap) + multiset{t.(nextRun := Stored(wasRows, t)[t.id].nextRun)}
    }

    /** A stored row wins over the new deadline. */
    method Insert(t: Timer)
      requires Valid() && Parses(clock, t)
      modifies this
      ensures Valid() && fired == old(fired)
      ensures Registered(t, old(heap), old(rows))
      ensures old(Agrees()) && NewTo(old(heap), t.id) && FindsOwnRow(old(rows), t)
              && IsIdOf(t.id, t.scriptId, t.kind, t.spec)
              ==> Agrees()
    {
      if Backed(multiset(heap), rows) && Named(rows) && NewTo(heap, t.id) && FindsOwnRow(rows, t)
         && IsIdOf(t.id, t.scriptId, t.kind, t.spec) {
        BackedInsert(heap, rows, t);
      }
      rows := Stored(rows, t);
      Push(t.(nextRun := rows[t.id].nextRun));
    }

    /** Filters the heap slice in place, then restores heap order. */
    method RemoveScript(scriptId: string)
      requires Valid()
      modifies this
      ensures Valid() && fired == old(fired)
      ensures multiset(heap) == multiset(OtherScripts(old(heap), scriptId))
      ensures rows == WithoutAfters(old(rows), scriptId)
      ensures old(Agrees()) ==> Agrees()
    {
      FilterInPlace(scriptId);
      Init();
      if Backed(multiset(old(heap)), rows) { BackedFilter(old(heap), rows, scriptId); }
      OthersParse(clock, old(heap), scriptId);
      rows := WithoutAfters(rows, scriptId);
    }

    method FilterInPlace(scriptId: string)
      modifies `heap
      ensures heap == OtherScripts(old(heap), scriptId)
    {
      var k := 0;
      for i := 0 to |heap|
        invariant k <= i && |heap| == |old(heap)|
        invariant heap[..k] == OtherScripts(old(heap)[..i], scriptId)
        invariant heap[i..] == old(heap)[i..]
      {
        assert old(heap)[..i + 1][..i] == old(heap)[..i];
        assert heap[i] == heap[i..][0];
        if heap[i].scriptId != scriptId {
          heap := heap[k := heap[i]];
          k := k + 1;
        }
      }
      assert old(heap)[..|heap|] == old(heap);
      heap := heap[..k];
    }

    /** Updates the row, reschedules a recurring timer from now, and reports the fire to the script. */
    method Fire(t: Timer, now: int)
      requires Valid()
      modifies this
      ensures Valid()
      ensures multiset(heap) == multiset(old(heap)) + multiset(Rearmed(clock, t, now))
      ensures rows == FiredRow(clock, old(rows), t, now)
      ensures fired == old(fired) + FireOf(clock, t, now)
    {
      FiresIffParses(clock, t, now);
      if t.kind == After {
        rows := rows - {t.id};
      } else {
        var next := clock.Next(t.kind, t.spec, now);
        if next.None? {
          assert multiset(heap) == multiset(heap) + multiset(Rearmed(clock, t, now));
          return;
        }
        if t.id in rows {
          rows := rows[t.id := rows[t.id].(lastRun := Some(now), nextRun := next.value)];
        }
        Push(t.(nextRun := next.value));
      }
      fired := fired + [(t.scriptId, t.id)];
      assert multiset(heap) == multiset(old(heap)) + multiset(Rearmed(clock, t, now));
    }

    method FireNext(now: int) returns (t: Timer)
      requires Valid() && heap != [] && heap[0].nextRun <= now
      modifies this
      ensures Valid() && Parses(clock, t)
      ensures t in multiset(old(heap)) && t.nextRun <= now
      ensures forall u | u in multiset(old(heap)) :: t.nextRun <= u.nextRun
      ensures multiset(heap) + multiset{t} == multiset(old(heap)) + multiset(Rearmed(clock, t, now))
      ensures rows == FiredRow(clock, old(rows), t, now)
      ensures fired == old(fired) + FireOf(clock, t, now)
      ensures old(Agrees()) ==> Agrees()
    {
      RootIsEarliestOfAll(heap);
      t := Pop();
      ghost var left := multiset(heap);
      forall u | u in left ensures u in multiset(old(heap)) { assert u in left + multiset{t}; }
      Fire(t, now);
      if Backed(left + multiset{t}, old(rows)) { BackedFire(clock, left, old(rows), t, now); }
    }

    /** Pops and fires every timer whose deadline has passed: each once, earliest first, and no other. */
    method FireDue(now: int) returns (ghost popped: seq<Timer>)
      requires Valid()
      modifies this
      ensures Valid()
      ensures multiset(popped) == Due(old(heap), now) && ByDeadline(popped)
      ensures fired == old(fired) + Reports(popped)
      ensures multiset(heap) + multiset(popped) == multiset(old(heap)) + multiset(AllRearmed(clock, popped, now))
      ensures forall t | t in multiset(heap) :: t.nextRun > now
      ensures forall t | t in popped :: BackAgain(clock, heap, t, now)
      ensures rows == RowsAfter(clock, old(rows), popped, now)
      ensures old(Agrees()) ==> Agrees()
    {
      popped := [];
      while heap != [] && heap[0].nextRun <= now
        invariant Valid() && Accounts(old(heap), heap, popped, AllRearmed(clock, popped, now), now)
        invariant forall t | t in popped :: Parses(clock, t)
        invariant fired == old(fired) + Fires(clock, popped, now)
        invariant rows == RowsAfter(clock, old(rows), popped, now)
        invariant old(Agrees()) ==> Agrees()
        decreases |Due(heap, now)|
      {
        ghost var h := heap;
        var t := FireNext(now);
        RearmedIsLater(clock, t, now);
        FiringSnoc(clock, old(rows), old(fired), popped, t, now);
        AccountsStep(old(heap), h, popped, AllRearmed(clock, popped, now), now, t, heap, Rearmed(clock, t, now));
        popped := popped + [t];
      }
      NoneDue(heap, now);
      ParsedTimersFire(clock, popped, now);
      PoppedComeBack(clock, heap, old(heap), popped, now);
    }
  }

  lemma NoneDue(h: seq<Timer>, now: int)
    requires Ordered(h) && (h == [] || h[0].nextRun > now)
    ensures Due(h, now) == multiset{} && forall t | t in multiset(h) :: t.nextRun > now
  {
    if h != [] {
      RootIsEarliestOfAll(h);
    }
    forall t: Timer ensures Due(h, now)[t] == 0 {
      assert t in multiset(h) ==> t.nextRun > now;
    }
  }
}
