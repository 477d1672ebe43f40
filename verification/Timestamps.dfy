// The text timestamps of state_history: why comparing them as plain strings
// orders and splits the rows by time.
module Timestamps {
  import opened Text
  import opened Wrappers
  import HistoryAggregates

  // ---------- Text comparison ----------

  /** How SQLite compares two texts: by the first character that differs, a proper prefix first. */
  predicate Less(s: string, t: string) {
    t != [] && (s == [] || s[0] < t[0] || (s[0] == t[0] && Less(s[1..], t[1..])))
  }

  lemma {:induction false} LessAfterPrefix(p: string, s: string, t: string)
    ensures Less(p + s, p + t) <==> Less(s, t)
  {
    if p == [] {
      assert p + s == s && p + t == t;
    } else {
      assert (p + s)[1..] == p[1..] + s && (p + t)[1..] == p[1..] + t;
      LessAfterPrefix(p[1..], s, t);
    }
  }

  function Pow10(w: nat): nat {
    if w == 0 then 1 else 10 * Pow10(w - 1)
  }

  /** n in decimal, zero-padded to width w. */
  function Padded(n: nat, w: nat): (s: string)
    requires n < Pow10(w)
    ensures |s| == w
  {
    if w == 0 then "" else Padded(n / 10, w - 1) + [DigitOf(n % 10)]
  }

  /** Fixed-width decimals compare as their numbers, ahead of whatever follows them. */
  lemma {:induction false} LessDecimal(a: nat, b: nat, w: nat, s: string, t: string)
    requires a < Pow10(w) && b < Pow10(w)
    ensures Less(Padded(a, w) + s, Padded(b, w) + t) <==> a < b || (a == b && Less(s, t))
  {
    if w == 0 {
      assert Padded(a, w) + s == s && Padded(b, w) + t == t;
    } else {
      var x, y := [DigitOf(a % 10)] + s, [DigitOf(b % 10)] + t;
      assert Padded(a, w) + s == Padded(a / 10, w - 1) + x;
      assert Padded(b, w) + t == Padded(b / 10, w - 1) + y;
      LessDecimal(a / 10, b / 10, w - 1, x, y);
      assert x[1..] == s && y[1..] == t;
    }
  }

  // ---------- Calendar ----------

  datatype Fields = Fields(year: nat, month: nat, day: nat, hour: nat, minute: nat, second: nat, micro: Option<nat>) {
    predicate Valid() {
      && year <= 9999 && 1 <= month <= 12 && 1 <= day <= MonthLength(year, month)
      && hour < 24 && minute < 60 && second < 60
      && (micro.Some? ==> micro.value < 1_000_000)
    }

    /** HA writes a fraction only when it is not zero. */
    predicate HAForm() {
      Valid() && micro != Some(0)
    }

    /** Seconds since the start of year 0. */
    function SecondNumber(): int
      requires Valid()
    {
      ((DayNumber(year, month, day) * 24 + hour) * 60 + minute) * 60 + second
    }

    /** Microseconds since the start of year 0. */
    function Instant(): int
      requires Valid()
    {
      SecondNumber() * 1_000_000 + if micro.Some? then micro.value else 0
    }

    /** The instant rendered to whole seconds with no zone: the bound the queries compare with. */
    function Bound(): string
      requires Valid()
    {
      Widths();
      DateTime("")
    }

    function Text(): string
      requires Valid()
    {
      Widths();
      DateTime(Tail(micro))
    }

    /** The fixed-width fields followed by tail. */
    function DateTime(tail: string): string
      requires Valid()
    {
      Widths();
      Padded(year, 4) + ("-" + (Padded(month, 2) + ("-" + (Padded(day, 2) + ("T" +
      (Padded(hour, 2) + (":" + (Padded(minute, 2) + (":" + (Padded(second, 2) + tail))))))))))
    }

    lemma Widths()
      requires Valid()
      ensures year < Pow10(4) && month < Pow10(2) && day < Pow10(2)
      ensures hour < Pow10(2) && minute < Pow10(2) && second < Pow10(2)
      ensures micro.Some? ==> micro.value < Pow10(6)
    {
      assert Pow10(2) == 100;
      assert Pow10(4) == 100 * Pow10(2);
      assert Pow10(6) == 100 * Pow10(4);
    }
  }

  predicate Leap(year: nat) {
    year % 4 == 0 && (year % 100 != 0 || year % 400 == 0)
  }

  function MonthLength(year: nat, month: nat): nat {
    if month == 2 then if Leap(year) then 29 else 28
    else if month == 4 || month == 6 || month == 9 || month == 11 then 30
    else 31
  }

  function DaysBeforeMonth(year: nat, month: nat): nat {
    if month <= 1 then 0 else DaysBeforeMonth(year, month - 1) + MonthLength(year, month - 1)
  }

  function YearLength(year: nat): nat {
    if Leap(year) then 366 else 365
  }

  function DaysBeforeYear(year: nat): nat {
    if year == 0 then 0 else DaysBeforeYear(year - 1) + YearLength(year - 1)
  }

  function DayNumber(year: nat, month: nat, day: nat): int {
    DaysBeforeYear(year) + DaysBeforeMonth(year, month) + day - 1
  }

  lemma {:induction false} MonthsApart(year: nat, m: nat, n: nat)
    requires 1 <= m < n
    ensures DaysBeforeMonth(year, m) + MonthLength(year, m) <= DaysBeforeMonth(year, n)
  {
    if m + 1 < n { MonthsApart(year, m, n - 1); }
  }

  lemma TwelveMonths(year: nat)
    ensures DaysBeforeMonth(year, 13) == YearLength(year)
  {
    assert DaysBeforeMonth(year, 2) == 31;
    assert DaysBeforeMonth(year, 4) == 62 + MonthLength(year, 2);
    assert DaysBeforeMonth(year, 6) == DaysBeforeMonth(year, 4) + 61;
    assert DaysBeforeMonth(year, 8) == DaysBeforeMonth(year, 6) + 61;
    assert DaysBeforeMonth(year, 10) == DaysBeforeMonth(year, 8) + 61;
    assert DaysBeforeMonth(year, 12) == DaysBeforeMonth(year, 10) + 61;
  }

  lemma {:induction false} YearsApart(y: nat, z: nat)
    requires y < z
    ensures DaysBeforeYear(y) + YearLength(y) <= DaysBeforeYear(z)
  {
    if y + 1 < z { YearsApart(y, z - 1); }
  }

  predicate DateBefore(f: Fields, g: Fields) {
    f.year < g.year || (f.year == g.year && (f.month < g.month || (f.month == g.month && f.day < g.day)))
  }

  lemma DateOrder(f: Fields, g: Fields)
    requires f.Valid() && g.Valid() && DateBefore(f, g)
    ensures DayNumber(f.year, f.month, f.day) < DayNumber(g.year, g.month, g.day)
  {
    if f.year < g.year {
      YearsApart(f.year, g.year);
      MonthsApart(f.year, f.month, 13);
      TwelveMonths(f.year);
    } else if f.month < g.month {
      MonthsApart(f.year, f.month, g.month);
    }
  }

  /** Comparing the fields from the year down is comparing the instants, to the second. */
  predicate SecondBefore(f: Fields, g: Fields) {
    DateBefore(f, g) || (f.year == g.year && f.month == g.month && f.day == g.day &&
      (f.hour < g.hour || (f.hour == g.hour && (f.minute < g.minute || (f.minute == g.minute && f.second < g.second)))))
  }

  lemma SecondOrder(f: Fields, g: Fields)
    requires f.Valid() && g.Valid()
    ensures SecondBefore(f, g) <==> f.SecondNumber() < g.SecondNumber()
    ensures f.SecondNumber() == g.SecondNumber() <==> f.(micro := None) == g.(micro := None)
  {
    if DateBefore(f, g) { DateOrder(f, g); }
    if DateBefore(g, f) { DateOrder(g, f); }
  }

  lemma OneMultiple(y: nat, k: nat)
    requires k in [4, 100, 400]
    ensures (y + k) / k == (y + k - 1) / k + if y % k == 0 then 1 else 0
  {
    if k == 4 {
    } else if k == 100 {
    } else {
    }
  }

  lemma MultiplesOf100(y: nat)
    ensures y % 400 == 0 ==> y % 100 == 0
    ensures y % 100 == 0 ==> y % 4 == 0
  {
    if y % 100 == 0 { assert y == 4 * (25 * (y / 100)); }
    if y % 400 == 0 { assert y == 100 * (4 * (y / 400)); }
  }

  lemma {:induction false} LeapDays(year: nat)
    ensures DaysBeforeYear(year) == 365 * year + (year + 3) / 4 - (year + 99) / 100 + (year + 399) / 400
  {
    if year > 0 {
      LeapDays(year - 1);
      OneMultiple(year - 1, 4);
      OneMultiple(year - 1, 100);
      OneMultiple(year - 1, 400);
      MultiplesOf100(year - 1);
    }
  }

  /** Day numbers count days: the first of a month follows the last of the one before, New Year the 31st of December. */
  lemma DaysAreConsecutive(year: nat, month: nat)
    requires 1 <= month <= 12
    ensures forall day | 1 <= day :: DayNumber(year, month, day + 1) == DayNumber(year, month, day) + 1
    ensures month < 12 ==> DayNumber(year, month + 1, 1) == DayNumber(year, month, MonthLength(year, month)) + 1
    ensures DayNumber(year + 1, 1, 1) == DayNumber(year, 12, 31) + 1
  {
    TwelveMonths(year);
  }

  /** The months of the Gregorian calendar, */
  lemma CalendarIsGregorian(year: nat)
    ensures MonthLength(year, 9) == MonthLength(year, 4) == MonthLength(year, 6) == MonthLength(year, 11) == 30
    ensures MonthLength(year, 2) == if year % 400 == 0 || (year % 4 == 0 && year % 100 != 0) then 29 else 28
    ensures forall month | month in [1, 3, 5, 7, 8, 10, 12] :: MonthLength(year, month) == 31
  {
  }

  /** of which 1970 began 719528 days after year 0. */
  lemma EpochDay(year: nat)
    requires year == 1970
    ensures DayNumber(year, 1, 1) == 719528
  {
    LeapDays(year);
  }

  // ---------- The text holds the fields ----------

  lemma {:induction false} PaddedIs(n: nat, w: nat)
    requires n < Pow10(w)
    ensures Value(Padded(n, w)) == Some(n)
  {
    if w > 0 {
      PaddedIs(n / 10, w - 1);
      assert Padded(n, w)[..w - 1] == Padded(n / 10, w - 1);
    }
  }

  /** Four digits of the year, two of each other field, and what separates them. */
  lemma DateTimeHolds(f: Fields, tail: string)
    requires f.Valid()
    ensures var t := f.DateTime(tail);
            && |t| >= 19 && t[19..] == tail
            && t[4] == '-' && t[7] == '-' && t[10] == 'T' && t[13] == ':' && t[16] == ':'
            && Value(t[..4]) == Some(f.year) && Value(t[5..7]) == Some(f.month) && Value(t[8..10]) == Some(f.day)
            && Value(t[11..13]) == Some(f.hour) && Value(t[14..16]) == Some(f.minute)
            && Value(t[17..19]) == Some(f.second)
  {
    f.Widths();
    PaddedIs(f.year, 4);
    PaddedIs(f.month, 2);
    PaddedIs(f.day, 2);
    PaddedIs(f.hour, 2);
    PaddedIs(f.minute, 2);
    PaddedIs(f.second, 2);
    DateTimePieces(f, tail);
  }

  lemma DateTimePieces(f: Fields, tail: string)
    requires f.Valid()
    requires f.year < Pow10(4) && f.month < Pow10(2) && f.day < Pow10(2)
    requires f.hour < Pow10(2) && f.minute < Pow10(2) && f.second < Pow10(2)
    ensures var t := f.DateTime(tail);
            && |t| == 19 + |tail| && t[19..] == tail
            && t[4] == '-' && t[7] == '-' && t[10] == 'T' && t[13] == ':' && t[16] == ':'
            && t[..4] == Padded(f.year, 4) && t[5..7] == Padded(f.month, 2) && t[8..10] == Padded(f.day, 2)
            && t[11..13] == Padded(f.hour, 2) && t[14..16] == Padded(f.minute, 2) && t[17..19] == Padded(f.second, 2)
  {
    var y, mo, d := Padded(f.year, 4), Padded(f.month, 2), Padded(f.day, 2);
    var h, mi, sec := Padded(f.hour, 2), Padded(f.minute, 2), Padded(f.second, 2);
    ClockPieces(h, mi, sec, tail);
    DatePieces(y, mo, d, h + (":" + (mi + (":" + (sec + tail)))));
    var t := f.DateTime(tail);
    assert t[13] == t[11..][2] && t[16] == t[11..][5] && t[19..] == t[11..][8..];
    assert t[11..13] == t[11..][..2] && t[14..16] == t[11..][3..5] && t[17..19] == t[11..][6..8];
  }

  lemma ClockPieces(h: string, m: string, s: string, tail: string)
    requires |h| == |m| == |s| == 2
    ensures var t := h + (":" + (m + (":" + (s + tail))));
            && |t| == 8 + |tail| && t[8..] == tail && t[2] == ':' && t[5] == ':'
            && t[..2] == h && t[3..5] == m && t[6..8] == s
  {
  }

  lemma DatePieces(y: string, m: string, d: string, clock: string)
    requires |y| == 4 && |m| == |d| == 2
    ensures var t := y + ("-" + (m + ("-" + (d + ("T" + clock)))));
            && |t| == 11 + |clock| && t[11..] == clock && t[4] == '-' && t[7] == '-' && t[10] == 'T'
            && t[..4] == y && t[5..7] == m && t[8..10] == d
  {
  }

  lemma TextIsBoundAndTail(f: Fields)
    requires f.Valid() && (f.micro.Some? ==> f.micro.value < Pow10(6))
    ensures |f.Bound()| == 19 && f.Text() == f.Bound() + Tail(f.micro)
  {
    f.Widths();
    DateTimePieces(f, "");
    DateTimePieces(f, Tail(f.micro));
    TailLast(f, Tail(f.micro));
  }

  lemma TailLast(f: Fields, tail: string)
    requires f.Valid()
    ensures f.DateTime(tail) == f.DateTime("") + tail
  {
  }

  lemma TailHolds(bound: string, micro: nat)
    requires |bound| == 19 && micro < Pow10(6)
    ensures var t := bound + Tail(Some(micro));
            |t| == 32 && t[19] == '.' && t[26..] == "+00:00" && Value(t[20..26]) == Some(micro)
  {
    PaddedIs(micro, 6);
    assert (bound + Tail(Some(micro)))[20..26] == Padded(micro, 6);
  }

  /** A row's text is the bound's form followed by the fraction, if there is one, and the zone. */
  lemma TextHolds(f: Fields)
    requires f.Valid()
    ensures |f.Bound()| == 19 && f.Bound() <= f.Text()
    ensures f.micro.None? ==> f.Text()[19..] == "+00:00"
    ensures f.micro.Some? ==>
              && |f.Text()| == 32 && f.Text()[19] == '.' && f.Text()[26..] == "+00:00"
              && Value(f.Text()[20..26]) == f.micro
  {
    f.Widths();
    TextIsBoundAndTail(f);
    if f.micro.Some? { TailHolds(f.Bound(), f.micro.value); }
  }

  // ---------- Lexical order is chronological order ----------

  lemma LessDateTime(f: Fields, g: Fields, s: string, t: string)
    requires f.Valid() && g.Valid()
    ensures Less(f.DateTime(s), g.DateTime(t)) <==>
            SecondBefore(f, g) || (f.(micro := None) == g.(micro := None) && Less(s, t))
  {
    f.Widths();
    g.Widths();
    var f6, g6 := Padded(f.second, 2) + s, Padded(g.second, 2) + t;
    var f5, g5 := Padded(f.minute, 2) + (":" + f6), Padded(g.minute, 2) + (":" + g6);
    var f4, g4 := Padded(f.hour, 2) + (":" + f5), Padded(g.hour, 2) + (":" + g5);
    var f3, g3 := Padded(f.day, 2) + ("T" + f4), Padded(g.day, 2) + ("T" + g4);
    var f2, g2 := Padded(f.month, 2) + ("-" + f3), Padded(g.month, 2) + ("-" + g3);
    LessDecimal(f.second, g.second, 2, s, t);
    LessAfterPrefix(":", f6, g6);
    LessDecimal(f.minute, g.minute, 2, ":" + f6, ":" + g6);
    LessAfterPrefix(":", f5, g5);
    LessDecimal(f.hour, g.hour, 2, ":" + f5, ":" + g5);
    LessAfterPrefix("T", f4, g4);
    LessDecimal(f.day, g.day, 2, "T" + f4, "T" + g4);
    LessAfterPrefix("-", f3, g3);
    LessDecimal(f.month, g.month, 2, "-" + f3, "-" + g3);
    LessAfterPrefix("-", f2, g2);
    LessDecimal(f.year, g.year, 4, "-" + f2, "-" + g2);
  }

  function Fraction(micro: Option<nat>): nat {
    if micro.Some? then micro.value else 0
  }

  /** What follows the seconds. */
  function Tail(micro: Option<nat>): string
    requires micro.Some? ==> micro.value < Pow10(6)
  {
    if micro.Some? then "." + (Padded(micro.value, 6) + "+00:00") else "+00:00"
  }

  lemma LessTail(a: Option<nat>, b: Option<nat>)
    requires a.Some? ==> a.value < Pow10(6)
    requires b.Some? ==> b.value < Pow10(6)
    ensures Less(Tail(a), Tail(b)) <==> Fraction(a) < Fraction(b) || (a.None? && b == Some(0))
  {
    LessAfterPrefix("+00:00", "", "");
    assert "+00:00" + "" == "+00:00";
    if a.Some? && b.Some? {
      LessAfterPrefix(".", Padded(a.value, 6) + "+00:00", Padded(b.value, 6) + "+00:00");
      LessDecimal(a.value, b.value, 6, "+00:00", "+00:00");
    }
  }

  /** Lexical order is chronological order, but that a zero fraction sorts after no fraction at the same instant. */
  lemma TextOrder(f: Fields, g: Fields)
    requires f.Valid() && g.Valid()
    ensures Less(f.Text(), g.Text()) <==>
            f.Instant() < g.Instant() || (f.Instant() == g.Instant() && f.micro.None? && g.micro == Some(0))
  {
    f.Widths();
    g.Widths();
    LessTail(f.micro, g.micro);
    LessDateTime(f, g, Tail(f.micro), Tail(g.micro));
    SecondOrder(f, g);
  }

  /** On the form HA writes, lexical order is exactly chronological order. */
  lemma HATextOrder(f: Fields, g: Fields)
    requires f.HAForm() && g.HAForm()
    ensures Less(f.Text(), g.Text()) <==> f.Instant() < g.Instant()
    ensures f.Instant() == g.Instant() <==> f == g
  {
    TextOrder(f, g);
    SecondOrder(f, g);
  }

  /** The bound selects exactly the rows whose second is at or after its own. */
  lemma BoundSplitsBySecond(f: Fields, g: Fields)
    requires f.Valid() && g.Valid()
    ensures Less(f.Text(), g.Bound()) <==> f.SecondNumber() < g.SecondNumber()
  {
    f.Widths();
    LessDateTime(f, g, Tail(f.micro), "");
    SecondOrder(f, g);
  }

  /** With a 'Z' after it, the bound lets only later seconds through. */
  lemma ZonedBoundSplits(f: Fields, g: Fields)
    requires f.Valid() && g.Valid()
    ensures Less(f.Text(), g.Bound() + "Z") <==> f.SecondNumber() <= g.SecondNumber()
  {
    f.Widths();
    TailLast(g, "Z");
    LessDateTime(f, g, Tail(f.micro), "Z");
    SecondOrder(f, g);
    SecondOrder(g, f);
  }

  /** So the opening-state query and the window query split an entity's rows the way HistoryPoints does. */
  lemma QueriesPartition(f: Fields, g: Fields, since: int)
    requires f.Valid() && g.Valid()
    requires HistoryAggregates.SecondOf(since) == g.SecondNumber()
    ensures Less(f.Text(), g.Bound()) <==>
            HistoryAggregates.SecondOf(f.Instant() * 1000) < HistoryAggregates.SecondOf(since)
  {
    BoundSplitsBySecond(f, g);
  }
}
