// The schedule editor: collapsing a weekly schedule into day-group entries, and
// expanding the entries back into a day-by-day schedule.
module ScheduleEditor {
  import opened StableSort
  import opened Wrappers

  /** One setpoint change; time is the minute of the day its "HH:MM" shows. */
  datatype Transition = Transition(time: int, temp: real)

  datatype GroupName = Everyday | Weekdays | Weekend | Day(day: nat) | Unknown(text: string)

  datatype Entry = Entry(group: GroupName, time: int, temp: real)

  /** Seven lists, Monday first. */
  type Schedule = s: seq<seq<Transition>> | |s| == 7 witness [[], [], [], [], [], [], []]

  /** The days an entry expands to; none for a group the card does not know. */
  function DaysOf(g: GroupName): set<nat> {
    match g
    case Everyday => {0, 1, 2, 3, 4, 5, 6}
    case Weekdays => {0, 1, 2, 3, 4}
    case Weekend => {5, 6}
    case Day(d) => if d < 7 then {d} else {}
    case Unknown(_) => {}
  }

  /** The groups of several days, largest first. */
  const MULTI_DAY: seq<GroupName> := [Everyday, Weekdays, Weekend]

  // ---------- By time ----------

  function TimeOf(t: Transition): int { t.time }

  function EntryTime(e: Entry): int { e.time }

  function SortDay(q: seq<Transition>): seq<Transition> { Sort(q, TimeOf) }

  // ---------- Collapsing ----------

  /** seen, followed by what list adds to it, each once. */
  function Extend(seen: seq<Transition>, list: seq<Transition>): seq<Transition> {
    if list == [] then seen
    else
      var before, t := Extend(seen, list[..|list| - 1]), list[|list| - 1];
      if t in before then before else before + [t]
  }

  /** The distinct transitions of the first n days, in order of first appearance. */
  function Order(s: Schedule, n: nat): seq<Transition>
    requires n <= 7
  {
    if n == 0 then [] else Extend(Order(s, n - 1), s[n - 1])
  }

  function PresentDays(s: Schedule, t: Transition): set<nat> {
    set d: nat | d < 7 && t in s[d]
  }

  /** The single days left over, ascending. */
  function Singles(days: set<nat>, n: nat): seq<GroupName> {
    if n == 0 then [] else Singles(days, n - 1) + if n - 1 in days then [Day(n - 1)] else []
  }

  /** The largest groups that fit first, then single days. */
  function Collapse(days: set<nat>, groups: seq<GroupName>): seq<GroupName> {
    if groups == [] then Singles(days, 7)
    else if DaysOf(groups[0]) <= days then [groups[0]] + Collapse(days - DaysOf(groups[0]), groups[1..])
    else Collapse(days, groups[1..])
  }

  function EntriesFor(t: Transition, groups: seq<GroupName>): (r: seq<Entry>)
    ensures |r| == |groups|
  {
    seq(|groups|, i requires 0 <= i < |groups| => Entry(groups[i], t.time, t.temp))
  }

  function AllEntries(s: Schedule, order: seq<Transition>): seq<Entry> {
    if order == [] then []
    else
      var t := order[|order| - 1];
      AllEntries(s, order[..|order| - 1]) + EntriesFor(t, Collapse(PresentDays(s, t), MULTI_DAY))
  }

  function Collapsed(s: Schedule): seq<Entry> {
    Sort(AllEntries(s, Order(s, 7)), EntryTime)
  }

  method EntriesFromSchedule(schedule: Schedule) returns (entries: seq<Entry>)
    ensures entries == Collapsed(schedule)
  {
    var byTransition: map<Transition, set<nat>> := map[];
    var order: seq<Transition> := [];
    for day := 0 to 7
      invariant order == Order(schedule, day)
      invariant forall t :: t in byTransition <==> t in order
      invariant forall t | t in byTransition :: byTransition[t] == set d: nat | d < day && t in schedule[d]
      invariant forall d, t | 0 <= d < day && t in schedule[d] :: t in order
    {
      order, byTransition := AddDay(schedule, day, order, byTransition);
    }
    entries := [];
    for i := 0 to |order|
      invariant entries == AllEntries(schedule, order[..i])
    {
      assert order[..i + 1][..i] == order[..i];
      var t := order[i];
      assert byTransition[t] == PresentDays(schedule, t);
      var groups := CollapseDays(byTransition[t]);
      entries := entries + EntriesFor(t, groups);
    }
    assert order[..|order|] == order;
    entries := Sort(entries, EntryTime);
  }

  method AddDay(schedule: Schedule, day: nat, order0: seq<Transition>, by0: map<Transition, set<nat>>)
      returns (order: seq<Transition>, byTransition: map<Transition, set<nat>>)
    requires day < 7
    requires forall t :: t in by0 <==> t in order0
    requires forall t | t in by0 :: by0[t] == set d: nat | d < day && t in schedule[d]
    requires forall d, t | 0 <= d < day && t in schedule[d] :: t in order0
    ensures order == Extend(order0, schedule[day])
    ensures forall t :: t in byTransition <==> t in order
    ensures forall t | t in byTransition :: byTransition[t] == set d: nat | d < day + 1 && t in schedule[d]
    ensures forall d, t | 0 <= d < day + 1 && t in schedule[d] :: t in order
  {
    order, byTransition := order0, by0;
    var list := schedule[day];
    for i := 0 to |list|
      invariant order == Extend(order0, list[..i])
      invariant forall t :: t in byTransition <==> t in order
      invariant forall t | t in order0 || t in list[..i] :: t in order
      invariant forall t | t in byTransition ::
                  byTransition[t] == (set d: nat | d < day && t in schedule[d]) + if t in list[..i] then {day} else {}
    {
      assert list[..i + 1] == list[..i] + [list[i]] && list[..i + 1][..i] == list[..i];
      var t := list[i];
      if t !in byTransition {
        byTransition := byTransition[t := {}];
        order := order + [t];
      }
      byTransition := byTransition[t := byTransition[t] + {day}];
    }
    assert list[..|list|] == list;
  }

  method CollapseDays(days: set<nat>) returns (groups: seq<GroupName>)
    ensures groups == Collapse(days, MULTI_DAY)
  {
    var remaining := days;
    groups := [];
    for i := 0 to |MULTI_DAY|
      invariant groups + Collapse(remaining, MULTI_DAY[i..]) == Collapse(days, MULTI_DAY)
    {
      var g := MULTI_DAY[i];
      if DaysOf(g) <= remaining {
        groups := groups + [g];
        remaining := remaining - DaysOf(g);
      }
    }
    var singles: seq<GroupName> := [];
    for day := 0 to 7
      invariant singles == Singles(remaining, day)
    {
      if day in remaining {
        singles := singles + [Day(day)];
      }
    }
    groups := groups + singles;
  }

  // ---------- Expanding ----------

  /** What the entries push onto one day, in entry order. */
  function OnDay(entries: seq<Entry>, day: nat): seq<Transition> {
    if entries == [] then []
    else
      var e := entries[|entries| - 1];
      var before := OnDay(entries[..|entries| - 1], day);
      if day in DaysOf(e.group) then before + [Transition(e.time, e.temp)] else before
  }

  function Expanded(entries: seq<Entry>): Schedule {
    seq(7, d requires 0 <= d < 7 => SortDay(OnDay(entries, d)))
  }

  method ScheduleFromEntries(entries: seq<Entry>) returns (days: Schedule)
    ensures days == Expanded(entries)
  {
    days := [[], [], [], [], [], [], []];
    for i := 0 to |entries|
      invariant forall d: nat | d < 7 :: days[d] == OnDay(entries[..i], d)
    {
      assert entries[..i + 1][..i] == entries[..i];
      var e := entries[i];
      for day := 0 to 7
        invariant forall d: nat | d < 7 :: days[d] == OnDay(entries[..if d < day then i + 1 else i], d)
      {
        if day in DaysOf(e.group) {
          days := days[day := days[day] + [Transition(e.time, e.temp)]];
        }
      }
    }
    assert entries[..|entries|] == entries;
    for day := 0 to 7
      invariant forall d: nat | d < 7 :: days[d] == if d < day then SortDay(OnDay(entries, d)) else OnDay(entries, d)
    {
      days := days[day := SortDay(days[day])];
    }
  }

  // ---------- Each transition lands on exactly its days ----------

  lemma {:induction false} OnDayConcat(a: seq<Entry>, b: seq<Entry>, d: nat)
    ensures OnDay(a + b, d) == OnDay(a, d) + OnDay(b, d)
  {
    if b == [] {
      assert a + b == a;
    } else {
      assert (a + b)[..|a + b| - 1] == a + b[..|b| - 1];
      OnDayConcat(a, b[..|b| - 1], d);
    }
  }

  lemma EntriesForConcat(t: Transition, a: seq<GroupName>, b: seq<GroupName>)
    ensures EntriesFor(t, a + b) == EntriesFor(t, a) + EntriesFor(t, b)
  {
  }

  lemma {:induction false} SinglesCover(t: Transition, days: set<nat>, n: nat, d: nat)
    requires n <= 7
    ensures OnDay(EntriesFor(t, Singles(days, n)), d) == if d < n && d in days then [t] else []
  {
    if n > 0 {
      SinglesCover(t, days, n - 1, d);
      var last := if n - 1 in days then [Day(n - 1)] else [];
      EntriesForConcat(t, Singles(days, n - 1), last);
      OnDayConcat(EntriesFor(t, Singles(days, n - 1)), EntriesFor(t, last), d);
    }
  }

  /** The groups a transition collapses to cover each of its days once and no other day. */
  lemma {:induction false} CollapseCovers(t: Transition, days: set<nat>, groups: seq<GroupName>, d: nat)
    requires forall x | x in days :: x < 7
    ensures OnDay(EntriesFor(t, Collapse(days, groups)), d) == if d in days then [t] else []
    decreases |groups|
  {
    if groups == [] {
      SinglesCover(t, days, 7, d);
    } else if DaysOf(groups[0]) <= days {
      var rest := Collapse(days - DaysOf(groups[0]), groups[1..]);
      CollapseCovers(t, days - DaysOf(groups[0]), groups[1..], d);
      EntriesForConcat(t, [groups[0]], rest);
      OnDayConcat(EntriesFor(t, [groups[0]]), EntriesFor(t, rest), d);
      assert EntriesFor(t, [groups[0]]) == [Entry(groups[0], t.time, t.temp)];
      assert OnDay(EntriesFor(t, [groups[0]]), d) == if d in DaysOf(groups[0]) then [t] else [] by {
        assert [Entry(groups[0], t.time, t.temp)][..0] == [];
      }
    } else {
      CollapseCovers(t, days, groups[1..], d);
    }
  }

  lemma {:induction false} SinglesAre(days: set<nat>, n: nat, g: GroupName)
    ensures g in Singles(days, n) <==> g.Day? && g.day < n && g.day in days
  {
    if n > 0 { SinglesAre(days, n - 1, g); }
  }

  lemma {:induction false} CollapseStep(days: set<nat>, first: GroupName, rest: seq<GroupName>, g: GroupName)
    ensures g in Collapse(days, [first] + rest) <==>
            if DaysOf(first) <= days then g == first || g in Collapse(days - DaysOf(first), rest)
                else g in Collapse(days, rest)
  {
    assert ([first] + rest)[1..] == rest;
  }

  /** Left for the second and third group, and for the single days. */
  function Left(days: set<nat>, g: GroupName): set<nat> {
    if DaysOf(g) <= days then days - DaysOf(g) else days
  }

  lemma CollapseMembers(days: set<nat>, g: GroupName)
    ensures var r0 := Left(days, Everyday); var r1 := Left(r0, Weekdays); var r2 := Left(r1, Weekend);
            g in Collapse(days, MULTI_DAY) <==>
              || (g == Everyday && DaysOf(g) <= days)
              || (g == Weekdays && DaysOf(g) <= r0)
              || (g == Weekend && DaysOf(g) <= r1)
              || (g.Day? && g.day < 7 && g.day in r2)
  {
    var r0 := Left(days, Everyday);
    var r1 := Left(r0, Weekdays);
    CollapseStep(days, Everyday, [Weekdays, Weekend], g);
    CollapseStep(r0, Weekdays, [Weekend], g);
    CollapseStep(r1, Weekend, [], g);
    SinglesAre(Left(r1, Weekend), 7, g);
    assert [Everyday] + [Weekdays, Weekend] == MULTI_DAY && [Weekdays] + [Weekend] == [Weekdays, Weekend]
        && [Weekend] + [] == [Weekend];
  }

  /** A group is used exactly when all its days are there and no larger group takes them. */
  lemma CollapseUsesLargestGroups(days: set<nat>, g: GroupName)
    requires forall x | x in days :: x < 7
    ensures g in Collapse(days, MULTI_DAY) <==>
            && DaysOf(g) != {} && DaysOf(g) <= days
            && forall h | h in MULTI_DAY && DaysOf(h) <= days :: !(DaysOf(g) < DaysOf(h))
  {
    CollapseMembers(days, g);
    assert Everyday in MULTI_DAY && Weekdays in MULTI_DAY && Weekend in MULTI_DAY;
    assert DaysOf(Everyday) == DaysOf(Weekdays) + DaysOf(Weekend);
  }

  /** The transitions of order that list holds, in that order. */
  function Among(order: seq<Transition>, list: seq<Transition>): seq<Transition> {
    if order == [] then []
    else
      var before, t := Among(order[..|order| - 1], list), order[|order| - 1];
      if t in list then before + [t] else before
  }

  lemma {:induction false} AllEntriesOnDay(s: Schedule, order: seq<Transition>, d: nat)
    requires d < 7
    ensures OnDay(AllEntries(s, order), d) == Among(order, s[d])
  {
    if order != [] {
      var t := order[|order| - 1];
      AllEntriesOnDay(s, order[..|order| - 1], d);
      CollapseCovers(t, PresentDays(s, t), MULTI_DAY, d);
      OnDayConcat(AllEntries(s, order[..|order| - 1]), EntriesFor(t, Collapse(PresentDays(s, t), MULTI_DAY)), d);
    }
  }

  // ---------- Day by day ----------

  /** The days of each group, Monday being 0. */
  predicate Covers(g: GroupName, d: nat) {
    match g
    case Everyday => d <= 6
    case Weekdays => d <= 4
    case Weekend => d == 5 || d == 6
    case Day(only) => d == only && d <= 6
    case Unknown(_) => false
  }

  predicate ShowsOn(e: Entry, t: Transition, d: nat) {
    Covers(e.group, d) && e.time == t.time && e.temp == t.temp
  }

  /** Each entry lands on the days its group covers, in entry order: at says which entries those are. */
  lemma {:induction false} OnDayAre(entries: seq<Entry>, d: nat) returns (at: seq<nat>)
    ensures |at| == |OnDay(entries, d)|
    ensures forall k | 0 <= k < |at| ::
              at[k] < |entries| && OnDay(entries, d)[k] == Transition(entries[at[k]].time, entries[at[k]].temp)
    ensures forall k, m | 0 <= k < m < |at| :: at[k] < at[m]
    ensures forall i: nat | i < |entries| :: i in at <==> Covers(entries[i].group, d)
  {
    if entries == [] {
      at := [];
    } else {
      var n := |entries| - 1;
      at := OnDayAre(entries[..n], d);
      assert entries == entries[..n] + [entries[n]];
      assert n !in at;
      if Covers(entries[n].group, d) { at := at + [n]; }
    }
  }

  /** A transition is on a day of the expanded schedule exactly when some entry of its time and value covers the day. */
  lemma ExpandedIff(entries: seq<Entry>, d: nat, t: Transition)
    requires d < 7
    ensures t in Expanded(entries)[d] <==>
            exists i | 0 <= i < |entries| :: ShowsOn(entries[i], t, d)
    ensures forall i, j | 0 <= i < j < |Expanded(entries)[d]| ::
              Expanded(entries)[d][i].time <= Expanded(entries)[d][j].time
  {
    SortSorted(OnDay(entries, d), TimeOf);
    var at := OnDayAre(entries, d);
    assert t in SortDay(OnDay(entries, d)) <==> t in multiset(OnDay(entries, d));
    if k :| 0 <= k < |at| && OnDay(entries, d)[k] == t {
      assert at[k] in at;
    }
    if i: nat :| i < |entries| && ShowsOn(entries[i], t, d) {
      var k :| 0 <= k < |at| && at[k] == i;
      assert OnDay(entries, d)[k] == t;
    }
  }

  predicate OnAll(s: Schedule, t: Transition, lo: nat, hi: nat) {
    forall d | lo <= d < hi && d < 7 :: t in s[d]
  }

  /** Whether the editor shows a transition under a group: the largest ones whose days all have it. */
  predicate ShownUnder(s: Schedule, t: Transition, g: GroupName) {
    match g
    case Everyday => OnAll(s, t, 0, 7)
    case Weekdays => OnAll(s, t, 0, 5) && !OnAll(s, t, 5, 7)
    case Weekend => OnAll(s, t, 5, 7) && !OnAll(s, t, 0, 5)
    case Day(d) => d < 7 && t in s[d] && !(if d < 5 then OnAll(s, t, 0, 5) else OnAll(s, t, 5, 7))
    case Unknown(_) => false
  }

  lemma CollapsedGroups(s: Schedule, t: Transition, g: GroupName)
    ensures g in Collapse(PresentDays(s, t), MULTI_DAY) <==> ShownUnder(s, t, g)
  {
    var days := PresentDays(s, t);
    CollapseMembers(days, g);
    assert DaysOf(Weekdays) <= days <==> OnAll(s, t, 0, 5);
    assert DaysOf(Weekend) <= days <==> OnAll(s, t, 5, 7);
    assert DaysOf(Everyday) == DaysOf(Weekdays) + DaysOf(Weekend);
    assert OnAll(s, t, 0, 7) <==> OnAll(s, t, 0, 5) && OnAll(s, t, 5, 7);
  }

  lemma {:induction false} EntryAmongAll(s: Schedule, order: seq<Transition>, e: Entry)
    ensures e in AllEntries(s, order) <==>
            Transition(e.time, e.temp) in order && ShownUnder(s, Transition(e.time, e.temp), e.group)
  {
    if order != [] {
      var rest, t := order[..|order| - 1], order[|order| - 1];
      var groups := Collapse(PresentDays(s, t), MULTI_DAY);
      assert order == rest + [t];
      EntryAmongAll(s, rest, e);
      CollapsedGroups(s, t, e.group);
      assert e in EntriesFor(t, groups) <==> e.group in groups && Transition(e.time, e.temp) == t by {
        if i :| 0 <= i < |groups| && groups[i] == e.group { assert EntriesFor(t, groups)[i].group == e.group; }
      }
    }
  }

  /** The editor's entries are exactly those, by time. */
  lemma CollapsedIff(s: Schedule, e: Entry)
    ensures e in Collapsed(s) <==> ShownUnder(s, Transition(e.time, e.temp), e.group)
    ensures forall i, j | 0 <= i < j < |Collapsed(s)| :: Collapsed(s)[i].time <= Collapsed(s)[j].time
  {
    var all := AllEntries(s, Order(s, 7));
    SortSorted(all, EntryTime);
    assert e in Sort(all, EntryTime) <==> e in multiset(all);
    EntryAmongAll(s, Order(s, 7), e);
    OrderIs(s, 7);
    if ShownUnder(s, Transition(e.time, e.temp), e.group) { ShownSomewhere(s, Transition(e.time, e.temp), e.group); }
  }

  lemma ShownSomewhere(s: Schedule, t: Transition, g: GroupName)
    requires ShownUnder(s, t, g)
    ensures exists d: nat | d < 7 :: t in s[d]
  {
    match g {
      case Everyday => assert t in s[0];
      case Weekdays => assert t in s[0];
      case Weekend => assert t in s[5];
      case Day(d) => assert t in s[d];
    }
  }

  // ---------- Sorting the entries sorts every day ----------

  function Shown(e: Entry): Transition {
    Transition(e.time, e.temp)
  }

  lemma OnDaySnoc(s: seq<Entry>, e: Entry, d: nat)
    ensures OnDay(s + [e], d) == if d in DaysOf(e.group) then OnDay(s, d) + [Shown(e)] else OnDay(s, d)
  {
    assert (s + [e])[..|s|] == s;
  }

  lemma {:induction false} OnDayInsert(s: seq<Entry>, e: Entry, d: nat)
    requires Sorted(s, EntryTime)
    ensures OnDay(Insert(s, e, EntryTime), d)
            == if d in DaysOf(e.group) then Insert(OnDay(s, d), Shown(e), TimeOf) else OnDay(s, d)
  {
    if s == [] {
      OnDaySnoc([], e, d);
    } else {
      var rest, last := s[..|s| - 1], s[|s| - 1];
      if last.time <= e.time {
        OnDaySnoc(s, e, d);
        OnDayBounded(s, d, e.time);
      } else {
        assert s == rest + [last];
        OnDayInsert(rest, e, d);
        OnDaySnoc(rest, last, d);
        OnDaySnoc(Insert(rest, e, EntryTime), last, d);
        InsertBefore(OnDay(rest, d), Shown(last), Shown(e));
      }
    }
  }

  lemma InsertBefore(q: seq<Transition>, last: Transition, t: Transition)
    requires t.time < last.time
    ensures Insert(q + [last], t, TimeOf) == Insert(q, t, TimeOf) + [last]
  {
    assert (q + [last])[..|q|] == q;
  }

  lemma {:induction false} OnDayBounded(s: seq<Entry>, d: nat, bound: int)
    requires forall e | e in s :: e.time <= bound
    ensures forall t | t in OnDay(s, d) :: t.time <= bound
  {
    if s != [] { OnDayBounded(s[..|s| - 1], d, bound); }
  }

  lemma {:induction false} OnDaySort(q: seq<Entry>, d: nat)
    ensures OnDay(Sort(q, EntryTime), d) == SortDay(OnDay(q, d))
  {
    if q != [] {
      var rest, last := q[..|q| - 1], q[|q| - 1];
      OnDaySort(rest, d);
      SortSorted(rest, EntryTime);
      OnDayInsert(Sort(rest, EntryTime), last, d);
      assert (OnDay(rest, d) + [Transition(last.time, last.temp)])[..|OnDay(rest, d)|] == OnDay(rest, d);
    }
  }

  function RoundTrip(s: Schedule): Schedule {
    Expanded(Collapsed(s))
  }

  /** A day comes back as its transitions in order of first appearance in the week, sorted by time. */
  lemma RoundTripDay(s: Schedule, d: nat)
    requires d < 7
    ensures RoundTrip(s)[d] == SortDay(Among(Order(s, 7), s[d]))
  {
    OnDaySort(AllEntries(s, Order(s, 7)), d);
    AllEntriesOnDay(s, Order(s, 7), d);
    SortSorted(OnDay(AllEntries(s, Order(s, 7)), d), TimeOf);
    SortOfSorted(SortDay(OnDay(AllEntries(s, Order(s, 7)), d)), TimeOf);
  }

  // ---------- What a round trip makes of a day ----------

  ghost predicate Before(q: seq<Transition>, a: Transition, b: Transition) {
    exists i, j | 0 <= i < j < |q| :: q[i] == a && q[j] == b
  }

  /** Earlier time first; at the same time, whichever the week shows first. */
  ghost predicate Precedes(order: seq<Transition>, a: Transition, b: Transition) {
    a.time < b.time || (a.time == b.time && Before(order, a, b))
  }

  ghost predicate Canonical(order: seq<Transition>, q: seq<Transition>) {
    forall i, j | 0 <= i < j < |q| :: Precedes(order, q[i], q[j])
  }

  lemma {:induction false} ExtendIs(seen: seq<Transition>, list: seq<Transition>)
    ensures seen <= Extend(seen, list)
    ensures forall t :: t in Extend(seen, list) <==> t in seen || t in list
    ensures NoDup(seen) ==> NoDup(Extend(seen, list))
  {
    if list != [] {
      assert list == list[..|list| - 1] + [list[|list| - 1]];
      ExtendIs(seen, list[..|list| - 1]);
    }
  }

  lemma {:induction false} OrderIs(s: Schedule, n: nat)
    requires n <= 7
    ensures NoDup(Order(s, n))
    ensures forall t :: t in Order(s, n) <==> exists d: nat | d < n :: t in s[d]
  {
    if n > 0 {
      OrderIs(s, n - 1);
      ExtendIs(Order(s, n - 1), s[n - 1]);
    }
  }

  lemma {:induction false} OrderPrefix(s: Schedule, n: nat, m: nat)
    requires n <= m <= 7
    ensures Order(s, n) <= Order(s, m)
    decreases m - n
  {
    if n < m {
      OrderPrefix(s, n, m - 1);
      ExtendIs(Order(s, m - 1), s[m - 1]);
    }
  }

  lemma {:induction false} AmongIs(order: seq<Transition>, list: seq<Transition>)
    ensures forall t :: t in Among(order, list) <==> t in order && t in list
    ensures forall i, j | 0 <= i < j < |Among(order, list)| ::
              Before(order, Among(order, list)[i], Among(order, list)[j])
  {
    if order != [] {
      var n := |order| - 1;
      assert order == order[..n] + [order[n]];
      AmongIs(order[..n], list);
      forall a, b | Before(order[..n], a, b) ensures Before(order, a, b) {
        var i, j :| 0 <= i < j < n && order[..n][i] == a && order[..n][j] == b;
        assert order[i] == a && order[j] == b;
      }
      forall t | t in Among(order[..n], list) ensures Before(order, t, order[n]) {
        var i :| 0 <= i < n && order[..n][i] == t;
        assert order[i] == t;
      }
    }
  }

  lemma {:induction false} InsertCanonical(order: seq<Transition>, s: seq<Transition>, x: Transition)
    requires Canonical(order, s) && forall y | y in s :: Before(order, y, x)
    ensures Canonical(order, Insert(s, x, TimeOf))
  {
    if s != [] {
      var rest, last := s[..|s| - 1], s[|s| - 1];
      assert s == rest + [last];
      if last.time <= x.time {
        forall i | 0 <= i < |s| ensures Precedes(order, s[i], x) {
          assert s[i] in s;
          if i < |rest| { assert Precedes(order, s[i], last); }
        }
      } else {
        InsertCanonical(order, rest, x);
        InsertKeeps(rest, x, TimeOf);
        var r := Insert(rest, x, TimeOf);
        forall i | 0 <= i < |r| ensures Precedes(order, r[i], last) {
          assert r[i] in r;
          if r[i] != x {
            var k :| 0 <= k < |rest| && rest[k] == r[i];
            assert Precedes(order, s[k], s[|rest|]);
          }
        }
      }
    }
  }

  lemma {:induction false} SortCanonical(order: seq<Transition>, q: seq<Transition>)
    requires forall i, j | 0 <= i < j < |q| :: Before(order, q[i], q[j])
    ensures Canonical(order, SortDay(q))
    ensures forall t :: t in SortDay(q) <==> t in q
  {
    if q != [] {
      var rest, last := q[..|q| - 1], q[|q| - 1];
      assert q == rest + [last];
      SortCanonical(order, rest);
      InsertCanonical(order, SortDay(rest), last);
    }
    SortSorted(q, TimeOf);
    forall t ensures t in SortDay(q) <==> t in q {
      assert t in SortDay(q) <==> t in multiset(SortDay(q));
      assert t in q <==> t in multiset(q);
    }
  }

  lemma NotBothBefore(q: seq<Transition>, a: Transition, b: Transition)
    requires NoDup(q) && Before(q, a, b)
    ensures !Before(q, b, a) && a != b
  {
  }

  lemma LastsAgree(order: seq<Transition>, p: seq<Transition>, q: seq<Transition>)
    requires NoDup(order) && Canonical(order, p) && Canonical(order, q) && p != [] && q != []
    requires p[|p| - 1] in q && q[|q| - 1] in p
    ensures p[|p| - 1] == q[|q| - 1]
  {
    var a, b := p[|p| - 1], q[|q| - 1];
    var k :| 0 <= k < |q| && q[k] == a;
    var m :| 0 <= m < |p| && p[m] == b;
    NotBothPrecede(order, a, b);
  }

  lemma WithoutLast(q: seq<Transition>, t: Transition)
    requires NoDup(q) && q != []
    ensures t in q[..|q| - 1] <==> t in q && t != q[|q| - 1]
  {
    var rest, last := q[..|q| - 1], q[|q| - 1];
    assert q == rest + [last];
    assert last !in rest;
  }

  lemma SomeMember(q: seq<Transition>) returns (t: Transition)
    ensures q != [] ==> t in q
  {
    t := if q == [] then Transition(0, 0.0) else q[0];
  }

  lemma NotBothPrecede(order: seq<Transition>, a: Transition, b: Transition)
    requires NoDup(order)
    ensures !(Precedes(order, a, b) && Precedes(order, b, a))
  {
  }

  /** A day's transitions have one canonical arrangement. */
  lemma {:induction false} CanonicalIsUnique(order: seq<Transition>, p: seq<Transition>, q: seq<Transition>)
    requires NoDup(order) && Canonical(order, p) && Canonical(order, q)
    requires forall t :: t in p <==> t in q
    ensures p == q
  {
    if p == [] || q == [] {
      var t := SomeMember(p + q);
    } else {
      LastsAgree(order, p, q);
      CanonicalNoDup(order, p);
      CanonicalNoDup(order, q);
      var p', q' := p[..|p| - 1], q[..|q| - 1];
      forall t: Transition | t in p' || t in q' ensures t in p' && t in q' {
        WithoutLast(p, t);
        WithoutLast(q, t);
      }
      CanonicalIsUnique(order, p', q');
      assert p == p' + [p[|p| - 1]] && q == q' + [q[|q| - 1]];
    }
  }

  lemma CanonicalNoDup(order: seq<Transition>, q: seq<Transition>)
    requires NoDup(order) && Canonical(order, q)
    ensures NoDup(q)
  {
    forall i, j | 0 <= i < j < |q| ensures q[i] != q[j] {
      assert Precedes(order, q[i], q[j]);
      if q[i] == q[j] { NotBothBefore(order, q[i], q[j]); }
    }
  }

  /** Every day comes back with exactly its distinct transitions, each once, sorted by time. */
  lemma RoundTripKeepsDays(s: Schedule, d: nat)
    requires d < 7
    ensures Canonical(Order(s, 7), RoundTrip(s)[d])
    ensures forall t :: t in RoundTrip(s)[d] <==> t in s[d]
    ensures NoDup(RoundTrip(s)[d]) && Sorted(RoundTrip(s)[d], TimeOf)
  {
    RoundTripDay(s, d);
    AmongIs(Order(s, 7), s[d]);
    SortCanonical(Order(s, 7), Among(Order(s, 7), s[d]));
    OrderIs(s, 7);
    CanonicalNoDup(Order(s, 7), RoundTrip(s)[d]);
    SortSorted(Among(Order(s, 7), s[d]), TimeOf);
  }

  /** The round trip changes nothing exactly on schedules whose every day is in canonical order already. */
  lemma RoundTripIsIdentityIff(s: Schedule)
    ensures RoundTrip(s) == s <==> forall d | 0 <= d < 7 :: Canonical(Order(s, 7), s[d])
  {
    forall d: nat | d < 7 ensures RoundTrip(s)[d] == s[d] <==> Canonical(Order(s, 7), s[d]) {
      RoundTripKeepsDays(s, d);
      OrderIs(s, 7);
      if Canonical(Order(s, 7), s[d]) {
        CanonicalIsUnique(Order(s, 7), RoundTrip(s)[d], s[d]);
      }
    }
  }

  /** In particular on those whose days are strictly increasing in time. */
  lemma RoundTripKeepsIncreasing(s: Schedule)
    requires forall d | 0 <= d < 7 :: forall i, j | 0 <= i < j < |s[d]| :: s[d][i].time < s[d][j].time
    ensures RoundTrip(s) == s
  {
    RoundTripIsIdentityIff(s);
  }

  lemma {:induction false} ExtendOrder(seen: seq<Transition>, list: seq<Transition>, i: nat, j: nat)
    requires i < j < |list| && NoDup(list) && list[i] !in seen && list[j] !in seen
    ensures Before(Extend(seen, list), list[i], list[j])
  {
    var rest := list[..|list| - 1];
    ExtendIs(seen, rest);
    var before := Extend(seen, rest);
    if j < |rest| {
      ExtendOrder(seen, rest, i, j);
      var x, y :| 0 <= x < y < |before| && before[x] == list[i] && before[y] == list[j];
      assert Extend(seen, list)[x] == list[i] && Extend(seen, list)[y] == list[j];
    } else {
      assert list[i] == rest[i] && list[i] in before;
      var x :| 0 <= x < |before| && before[x] == list[i];
      assert list[j] !in before;
      assert Extend(seen, list)[x] == list[i] && Extend(seen, list)[|before|] == list[j];
    }
  }

  lemma BeforeInPrefix(p: seq<Transition>, q: seq<Transition>, a: Transition, b: Transition)
    requires p <= q && Before(p, a, b)
    ensures Before(q, a, b)
  {
    var i, j :| 0 <= i < j < |p| && p[i] == a && p[j] == b;
    assert q[i] == a && q[j] == b;
  }

  lemma BeforeAppended(p: seq<Transition>, q: seq<Transition>, a: Transition, b: Transition)
    requires p <= q && a in p && b in q && b !in p
    ensures Before(q, a, b)
  {
    var i :| 0 <= i < |p| && p[i] == a;
    var j :| 0 <= j < |q| && q[j] == b;
    assert q[i] == a;
  }

  lemma BeforeSplits(p: seq<Transition>, q: seq<Transition>, a: Transition, b: Transition)
    requires p <= q && NoDup(q) && Before(q, a, b)
    ensures a in q && b in q && (Before(p, a, b) || b !in p)
    ensures a !in p ==> b !in p
  {
    var i, j :| 0 <= i < j < |q| && q[i] == a && q[j] == b;
    if j < |p| {
      assert p[i] == a && p[j] == b;
    }
  }

  /** The round trip keeps the order in which the week first shows transitions of the same time. */
  lemma {:induction false} RoundTripKeepsTies(s: Schedule, n: nat, a: Transition, b: Transition)
    requires n <= 7 && a.time == b.time && Before(Order(s, n), a, b)
    ensures Before(Order(RoundTrip(s), n), a, b)
  {
    if n > 0 {
      var seen, seen', list, list' := Order(s, n - 1), Order(RoundTrip(s), n - 1), s[n - 1], RoundTrip(s)[n - 1];
      ExtendIs(seen, list);
      ExtendIs(seen', list');
      OrderIs(s, n);
      BeforeSplits(seen, Order(s, n), a, b);
      if Before(seen, a, b) {
        RoundTripKeepsTies(s, n - 1, a, b);
        BeforeInPrefix(seen', Order(RoundTrip(s), n), a, b);
      } else if a in seen {
        SameSeen(s, n - 1);
        RoundTripKeepsDays(s, n - 1);
        BeforeAppended(seen', Order(RoundTrip(s), n), a, b);
      } else {
        TiesWithinDay(s, n - 1, a, b);
      }
    }
  }

  lemma TiesWithinDay(s: Schedule, d: nat, a: Transition, b: Transition)
    requires d < 7 && a.time == b.time && Before(Order(s, d + 1), a, b)
    requires a in s[d] && b in s[d] && a !in Order(s, d) && b !in Order(s, d)
    ensures Before(Order(RoundTrip(s), d + 1), a, b)
  {
    var list' := RoundTrip(s)[d];
    RoundTripKeepsDays(s, d);
    SameSeen(s, d);
    OrderPrefix(s, d + 1, 7);
    BeforeInPrefix(Order(s, d + 1), Order(s, 7), a, b);
    OrderIs(s, 7);
    NotBothBefore(Order(s, 7), a, b);
    assert a in list' && b in list';
    var i :| 0 <= i < |list'| && list'[i] == a;
    var j :| 0 <= j < |list'| && list'[j] == b;
    ExtendOrder(Order(RoundTrip(s), d), list', i, j);
  }

  lemma SameSeen(s: Schedule, n: nat)
    requires n <= 7
    ensures forall t :: t in Order(RoundTrip(s), n) <==> t in Order(s, n)
  {
    OrderIs(s, n);
    OrderIs(RoundTrip(s), n);
    forall d: nat | d < n ensures forall t :: t in RoundTrip(s)[d] <==> t in s[d] {
      RoundTripKeepsDays(s, d);
    }
  }

  /** Repeating the round trip changes nothing. */
  lemma RoundTripIsIdempotent(s: Schedule)
    ensures RoundTrip(RoundTrip(s)) == RoundTrip(s)
  {
    var once := RoundTrip(s);
    forall d | 0 <= d < 7 ensures Canonical(Order(once, 7), once[d]) {
      RoundTripKeepsDays(s, d);
      forall i, j | 0 <= i < j < |once[d]| ensures Precedes(Order(once, 7), once[d][i], once[d][j]) {
        assert Precedes(Order(s, 7), once[d][i], once[d][j]);
        if once[d][i].time == once[d][j].time {
          RoundTripKeepsTies(s, 7, once[d][i], once[d][j]);
        }
      }
    }
    RoundTripIsIdentityIff(once);
  }
}
