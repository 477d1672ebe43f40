// Syslog datagrams: the RFC 5424 header and structured data, the older BSD
// header, and what is left as text. Datagrams are strings of bytes.
module Syslog {
  import opened Text
  import opened Wrappers

  /** What the standard library's date parser accepts. */
  datatype Dates = Dates(rfc3339: string -> bool, bsd: string -> bool)

  const BSD_LENGTH: nat := 15
  const BOM: string := [0xEF as char, 0xBB as char, 0xBF as char]

  // ---------- Text ----------

  predicate Blank(c: char) {
    c in " \t\r\n\0"
  }

  function TrimLeft(s: string): string {
    if s != "" && Blank(s[0]) then TrimLeft(s[1..]) else s
  }

  function TrimRight(s: string): string {
    if s != "" && Blank(s[|s| - 1]) then TrimRight(s[..|s| - 1]) else s
  }

  function Trim(s: string): string {
    TrimRight(TrimLeft(s))
  }

  function TrimPrefix(s: string, prefix: string): string {
    if prefix <= s then s[|prefix|..] else s
  }

  predicate Trimmed(s: string) {
    s == "" || (s[0] !in " \t\r\n\0" && s[|s| - 1] !in " \t\r\n\0")
  }

  /** At most n fields, the last one holding whatever separators are left. */
  function SplitN(s: string, n: nat): (fields: seq<string>)
    requires n > 0
    ensures 0 < |fields| <= n
  {
    var i := IndexOf(s, ' ');
    if n == 1 || i == |s| then [s] else [s[..i]] + SplitN(s[i + 1..], n - 1)
  }

  // ---------- Structured data ----------

  /** Where a scan of an element stands: after a backslash, inside quotes. */
  datatype Mode = Mode(escaped: bool, quoted: bool)

  const PLAIN := Mode(false, false)

  predicate Closes(m: Mode, c: char) {
    !m.escaped && !m.quoted && c == ']'
  }

  function Next(m: Mode, c: char): Mode {
    if m.escaped then m.(escaped := false)
    else if c == '\\' then m.(escaped := true)
    else if c == '"' then m.(quoted := !m.quoted)
    else m
  }

  /** Where in s the element closes, scanning from m; -1 if it does not. */
  function CloseIn(s: string, m: Mode): (i: int)
    ensures -1 <= i < |s|
  {
    if s == "" then -1
    else if Closes(m, s[0]) then 0
    else
      var i := CloseIn(s[1..], Next(m, s[0]));
      if i < 0 then -1 else i + 1
  }

  function End(s: string): (i: int)
    ensures -1 <= i < |s|
    ensures i != 0
  {
    if s == "" then -1
    else
      var i := CloseIn(s[1..], PLAIN);
      if i < 0 then -1 else i + 1
  }

  function SkipElements(s: string): string {
    if "[" <= s then
      if End(s) < 0 then "" else SkipElements(s[End(s) + 1..])
    else s
  }

  function Skip(s: string): string {
    if "-" <= s then s[1..] else SkipElements(s)
  }

  method ElementEnd(s: string) returns (end: int)
    requires s != ""
    ensures end == End(s)
  {
    var escaped, quoted := false, false;
    for i := 1 to |s|
      invariant var at := CloseIn(s[i..], Mode(escaped, quoted)); End(s) == if at < 0 then -1 else i + at
    {
      var c := s[i];
      assert s[i..][0] == c && s[i..][1..] == s[i + 1..];
      if escaped {
        escaped := false;
      } else if c == '\\' {
        escaped := true;
      } else if c == '"' {
        quoted := !quoted;
      } else if c == ']' && !quoted {
        return i;
      }
    }
    return -1;
  }

  method SkipStructuredData(s: string) returns (rest: string)
    ensures rest == Skip(s)
  {
    if "-" <= s {
      return s[1..];
    }
    rest := s;
    while "[" <= rest
      invariant SkipElements(rest) == SkipElements(s)
      decreases |rest|
    {
      var end := ElementEnd(rest);
      if end < 0 {
        return "";
      }
      rest := rest[end + 1..];
    }
  }

  // ---------- Printed structured data ----------

  /** bare: the sender leaves the brackets of the value unescaped. */
  datatype Param = Param(name: string, value: string, bare: bool)
  datatype Element = Element(id: string, params: seq<Param>)

  /** Section 6.3.3 of RFC 5424: '"', '\' and ']' are escaped in values, the last of them not by every sender. */
  function Escape(v: string, bare: bool): string {
    if v == "" then "" else EscapeChar(v[0], bare) + Escape(v[1..], bare)
  }

  function EscapeChar(c: char, bare: bool): string {
    if c == '"' || c == '\\' || (c == ']' && !bare) then ['\\', c] else [c]
  }

  function PrintParam(p: Param): string {
    " " + p.name + "=\"" + Escape(p.value, p.bare) + "\""
  }

  function PrintParams(params: seq<Param>): string {
    if params == [] then "" else PrintParams(params[..|params| - 1]) + PrintParam(params[|params| - 1])
  }

  function PrintElement(e: Element): string {
    "[" + e.id + PrintParams(e.params) + "]"
  }

  /** The elements with rest after them. */
  function PrintElements(es: seq<Element>, rest: string): string {
    if es == [] then rest else PrintElement(es[0]) + PrintElements(es[1..], rest)
  }

  function PrintData(es: seq<Element>, rest: string): string {
    if es == [] then "-" + rest else PrintElements(es, rest)
  }

  /** A name may hold any backslashes, but neither of the characters that would end it. */
  predicate NameOk(name: string) {
    '"' !in name && ']' !in name
  }

  predicate ElementOk(e: Element) {
    NameOk(e.id) && forall p | p in e.params :: NameOk(p.name)
  }

  /** The scan's mode after s, if the element does not close within it. */
  function After(s: string, m: Mode): Option<Mode> {
    if s == "" then Some(m)
    else if Closes(m, s[0]) then None
    else After(s[1..], Next(m, s[0]))
  }

  lemma {:induction false} AfterConcat(a: string, b: string, m: Mode)
    ensures After(a + b, m) == if After(a, m).None? then None else After(b, After(a, m).value)
  {
    if a == "" {
      assert a + b == b;
    } else {
      assert (a + b)[1..] == a[1..] + b;
      if !Closes(m, a[0]) { AfterConcat(a[1..], b, Next(m, a[0])); }
    }
  }

  lemma {:induction false} CloseAfter(a: string, b: string, m: Mode)
    requires After(a, m).Some?
    ensures var i := CloseIn(b, After(a, m).value); CloseIn(a + b, m) == if i < 0 then -1 else |a| + i
  {
    if a == "" {
      assert a + b == b;
    } else {
      assert (a + b)[1..] == a[1..] + b;
      CloseAfter(a[1..], b, Next(m, a[0]));
    }
  }

  /** The name ends in an odd number of backslashes. */
  predicate OddTail(name: string) {
    name != "" && name[|name| - 1] == '\\' && !OddTail(name[..|name| - 1])
  }

  lemma {:induction false} AfterName(name: string)
    requires NameOk(name)
    ensures After(name, PLAIN) == Some(Mode(OddTail(name), false))
  {
    if name != "" {
      var front, c := name[..|name| - 1], name[|name| - 1];
      assert name == front + [c];
      AfterName(front);
      AfterConcat(front, [c], PLAIN);
      assert After([c], Mode(OddTail(front), false)) == After([c][1..], Next(Mode(OddTail(front), false), c));
    }
  }

  /** Quoted brackets close nothing, escaped or not. */
  lemma {:induction false} AfterEscape(v: string, bare: bool)
    ensures After(Escape(v, bare), Mode(false, true)) == Some(Mode(false, true))
  {
    if v != "" {
      var first := EscapeChar(v[0], bare);
      AfterEscape(v[1..], bare);
      AfterConcat(first, Escape(v[1..], bare), Mode(false, true));
      AfterOne(v[0], Mode(false, true));
      if |first| == 2 {
        assert first[1..] == [v[0]];
        AfterOne(v[0], Mode(true, true));
      }
    }
  }

  lemma AfterOne(c: char, m: Mode)
    ensures After([c], m) == if Closes(m, c) then None else Some(Next(m, c))
  {
    assert [c][1..] == "";
  }

  lemma AfterParam(p: Param, m: Mode)
    requires NameOk(p.name) && !m.quoted
    ensures After(PrintParam(p), m) == Some(PLAIN)
  {
    var quoted := Mode(false, true);
    AfterOne(' ', m);
    AfterName(p.name);
    AfterConcat(" ", p.name, m);
    AfterEquals(Mode(OddTail(p.name), false));
    AfterConcat(" " + p.name, "=\"", m);
    var value := Escape(p.value, p.bare);
    AfterEscape(p.value, p.bare);
    AfterConcat(" " + p.name + "=\"", value, m);
    AfterOne('"', quoted);
    AfterConcat(" " + p.name + "=\"" + value, "\"", m);
  }

  lemma AfterEquals(m: Mode)
    requires !m.quoted
    ensures After("=\"", m) == Some(Mode(false, true))
  {
    AfterOne('=', m);
    AfterOne('"', PLAIN);
    AfterConcat("=", "\"", m);
    assert "=" + "\"" == "=\"";
  }

  lemma {:induction false} AfterParams(params: seq<Param>, m: Mode)
    requires !m.quoted && forall p | p in params :: NameOk(p.name)
    ensures After(PrintParams(params), m) == Some(if params == [] then m else PLAIN)
  {
    if params != [] {
      var front, p := params[..|params| - 1], params[|params| - 1];
      AfterParams(front, m);
      AfterConcat(PrintParams(front), PrintParam(p), m);
      AfterParam(p, if front == [] then m else PLAIN);
    }
  }

  /** Nothing of the element escapes its own closing bracket. */
  predicate Closable(e: Element) {
    e.params != [] || !OddTail(e.id)
  }

  lemma AfterElement(e: Element)
    requires ElementOk(e)
    ensures After(e.id + PrintParams(e.params), PLAIN) == Some(Mode(!Closable(e), false))
  {
    AfterName(e.id);
    AfterParams(e.params, Mode(OddTail(e.id), false));
    AfterConcat(e.id, PrintParams(e.params), PLAIN);
  }

  lemma PrintedElementEnd(e: Element, rest: string)
    requires ElementOk(e)
    ensures var s, n, i := PrintElement(e) + rest, |PrintElement(e)|, CloseIn(rest, PLAIN);
            End(s) == if Closable(e) then n - 1 else if i < 0 then -1 else n + i
  {
    AfterElement(e);
    CloseAfter(e.id + PrintParams(e.params), "]" + rest, PLAIN);
    InsideElement(e, rest);
    CloseAtBracket(rest, !Closable(e));
  }

  lemma InsideElement(e: Element, rest: string)
    ensures (PrintElement(e) + rest)[1..] == e.id + PrintParams(e.params) + ("]" + rest)
  {
    var body := e.id + PrintParams(e.params);
    assert PrintElement(e) + rest == "[" + (body + ("]" + rest));
  }

  lemma CloseAtBracket(rest: string, escaped: bool)
    ensures var i := CloseIn(rest, PLAIN);
            CloseIn("]" + rest, Mode(escaped, false)) == if !escaped then 0 else if i < 0 then -1 else i + 1
  {
    assert ("]" + rest)[1..] == rest;
  }

  /**
   * The scan consumes exactly a printed element, whatever its values, unless it has none and its id ends in an odd
   * run of backslashes.
   */
  lemma ElementEndIff(e: Element, rest: string)
    requires ElementOk(e)
    ensures End(PrintElement(e) + rest) == |PrintElement(e)| - 1 <==> e.params != [] || !OddTail(e.id)
  {
    PrintedElementEnd(e, rest);
  }

  const BACKSLASH_ID: Element := Element("a\\", [])

  /** [a\] swallows the message after it. */
  lemma BackslashIdRunsOn()
    ensures ElementOk(BACKSLASH_ID) && Skip(PrintElement(BACKSLASH_ID) + " text") == ""
  {
    assert !OddTail(BACKSLASH_ID.id[..1]);
    PrintedElementEnd(BACKSLASH_ID, " text");
    NeverCloses(" text");
    var s := PrintElement(BACKSLASH_ID) + " text";
    assert s[0] == '[';
    assert End(s) == -1;
    assert SkipElements(s) == "";
  }

  lemma {:induction false} NeverCloses(s: string)
    requires ']' !in s
    ensures forall m :: CloseIn(s, m) == -1
  {
    if s != "" { NeverCloses(s[1..]); }
  }

  lemma {:induction false} SkipShortens(s: string)
    ensures |SkipElements(s)| <= |s|
    decreases |s|
  {
    if "[" <= s && End(s) >= 0 { SkipShortens(s[End(s) + 1..]); }
  }

  /** One printed element before another bracket is skipped, even when it runs on into the next. */
  lemma SkipOne(e: Element, rest: string)
    requires ElementOk(e) && (Closable(e) || "[" <= rest)
    ensures SkipElements(PrintElement(e) + rest) == SkipElements(rest)
  {
    var s := PrintElement(e) + rest;
    PrintedElementEnd(e, rest);
    if Closable(e) {
      assert s[|PrintElement(e)|..] == rest;
    } else {
      assert rest[0] == '[' && CloseIn(rest, PLAIN) == End(rest);
      if End(rest) >= 0 { assert s[End(s) + 1..] == rest[End(rest) + 1..]; }
    }
  }

  /**
   * What is left of rest when the last element ran on into it: nothing, or less than what follows its first
   * bracket.
   */
  predicate Eaten(left: string, rest: string) {
    left == "" || |left| + IndexOf(rest, ']') < |rest|
  }

  predicate AllClose(es: seq<Element>) {
    es == [] || Closable(es[|es| - 1])
  }

  /** Skipping takes off exactly the printed elements, unless the last of them runs on into the message. */
  lemma {:induction false} SkipPrinted(es: seq<Element>, rest: string)
    requires !("[" <= rest) && forall e | e in es :: ElementOk(e)
    ensures var left := SkipElements(PrintElements(es, rest)); if AllClose(es) then left == rest else Eaten(left, rest)
    decreases |es|
  {
    if es != [] {
      var e, tail := es[0], PrintElements(es[1..], rest);
      if |es| == 1 {
        SkipLast(e, rest);
      } else {
        assert forall x | x in es[1..] :: x in es;
        SkipPrinted(es[1..], rest);
        StartsWithBracket(es[1..], rest);
        SkipOne(e, tail);
        assert AllClose(es) == AllClose(es[1..]);
      }
    }
  }

  lemma StartsWithBracket(es: seq<Element>, rest: string)
    requires es != []
    ensures "[" <= PrintElements(es, rest) && Skip(PrintElements(es, rest)) == SkipElements(PrintElements(es, rest))
  {
    assert PrintElement(es[0])[0] == '[';
    assert PrintElements(es, rest)[0] == '[';
  }

  lemma SkipLast(e: Element, rest: string)
    requires ElementOk(e) && !("[" <= rest)
    ensures var left := SkipElements(PrintElement(e) + rest); if Closable(e) then left == rest else Eaten(left, rest)
  {
    if Closable(e) {
      SkipOne(e, rest);
    } else {
      SkipRunsOn(e, rest);
    }
  }

  lemma SkipRunsOn(e: Element, rest: string)
    requires ElementOk(e) && !Closable(e)
    ensures Eaten(SkipElements(PrintElement(e) + rest), rest)
  {
    var s, i := PrintElement(e) + rest, CloseIn(rest, PLAIN);
    PrintedElementEnd(e, rest);
    assert "[" <= s;
    if i >= 0 {
      var left := rest[i + 1..];
      assert s[End(s) + 1..] == left;
      SkipShortens(left);
      ClosesAtBracket(rest, PLAIN);
      IndexOfFirst(rest, ']', i);
    }
  }

  lemma {:induction false} ClosesAtBracket(s: string, m: Mode)
    ensures CloseIn(s, m) >= 0 ==> s[CloseIn(s, m)] == ']'
  {
    if s != "" { ClosesAtBracket(s[1..], Next(m, s[0])); }
  }

  // ---------- Headers ----------

  /** A sign is accepted before the digits. */
  function Atoi(s: string): Option<int> {
    var digits := if s != "" && s[0] in "+-" then s[1..] else s;
    if digits == "" || Value(digits).None? then None
    else
      var n: int := Value(digits).value;
      Some(if s[0] == '-' then -n else n)
  }

  lemma AtoiSigned(sign: char, d: string, n: nat)
    requires d != "" && Value(d) == Some(n) && sign in "+-"
    ensures Atoi([sign] + d) == Some(if sign == '-' then 0 - n else n)
  {
    var s := [sign] + d;
    assert s[1..] == d && s[0] == sign;
  }

  /** A number may carry a sign, but needs digits. */
  lemma SignedNumbers(n: nat)
    ensures Atoi(Decimal(n)) == Some(n) && Atoi("+" + Decimal(n)) == Some(n)
    ensures Atoi("-" + Decimal(n)) == Some(0 - n)
    ensures Atoi("").None? && Atoi("+").None?
  {
    DecimalIs(n);
    assert IsDigit(Decimal(n)[0]);
    AtoiSigned('+', Decimal(n), n);
    AtoiSigned('-', Decimal(n), n);
  }

  function CutPriority(s: string): (r: Option<(nat, string)>)
    ensures r.Some? ==> r.value.0 <= 191
  {
    var end := IndexOf(s, '>');
    if !("<" <= s) || end == |s| || end < 2 || end > 4 then None
    else
      var pri := Atoi(s[1..end]);
      if pri.None? || pri.value < 0 || pri.value > 191 then None else Some((pri.value, s[end + 1..]))
  }

  predicate IsRFC3339(s: string, dates: Dates) {
    |s| > 10 && s[10] == 'T' && dates.rfc3339(s)
  }

  /** The host and what follows the structured data. */
  function Header(s: string, dates: Dates): Option<(string, string)> {
    var fields := SplitN(s, 7);
    if |fields| < 6 || fields[0] != "1" || (fields[1] != "-" && !IsRFC3339(fields[1], dates)) then None
    else Some((if fields[2] == "-" then "" else fields[2], if |fields| < 7 then "" else Skip(fields[6])))
  }

  function CutTimestamp(s: string, dates: Dates): Option<string> {
    if |s| > BSD_LENGTH && s[BSD_LENGTH] == ' ' && dates.bsd(s[..BSD_LENGTH]) then Some(s[BSD_LENGTH + 1..])
    else
      var i := IndexOf(s, ' ');
      if IsRFC3339(s[..i], dates) then Some(if i == |s| then "" else s[i + 1..]) else None
  }

  function CutHost(s: string): Option<(string, string)> {
    var i := IndexOf(s, ' ');
    if i == |s| || i == 0 || s[i - 1] == ':' || '[' in s[..i] then None else Some((s[..i], s[i + 1..]))
  }

  /** priority is -1 without a PRI part. */
  datatype Parsed = Parsed(host: string, priority: int, text: string)

  function MessageText(after: string): string {
    Trim(TrimPrefix(TrimPrefix(after, " "), BOM))
  }

  function ParsedBSD(s: string, priority: int, dates: Dates): Parsed {
    match CutTimestamp(s, dates)
    case None => Parsed("", priority, Trim(s))
    case Some(after) =>
      match CutHost(after)
      case None => Parsed("", priority, Trim(after))
      case Some((host, rest)) => Parsed(host, priority, Trim(rest))
  }

  function ParsedAs(raw: string, dates: Dates): Parsed {
    match CutPriority(raw)
    case None => ParsedBSD(raw, -1, dates)
    case Some((priority, rest)) =>
      match Header(rest, dates)
      case None => ParsedBSD(rest, priority, dates)
      case Some((host, after)) => Parsed(host, priority, MessageText(after))
  }

  class Message {
    var host: string
    var priority: int
    var text: string
    const raw: string

    function View(): Parsed
      reads this
    {
      Parsed(host, priority, text)
    }

    constructor (raw: string)
      ensures this.raw == raw && View() == Parsed("", -1, "")
    {
      this.raw := raw;
      host, priority, text := "", -1, "";
    }

    /** Leaves the message alone unless the header is complete. */
    method CutRFC5424(s: string, dates: Dates) returns (after: string, ok: bool)
      modifies `host
      ensures ok <==> Header(s, dates).Some?
      ensures ok ==> after == Header(s, dates).value.1
      ensures host == if ok && Header(s, dates).value.0 != "" then Header(s, dates).value.0
                      else if ok && SplitN(s, 7)[2] == "" then "" else old(host)
    {
      var fields := SplitN(s, 7);
      if |fields| < 6 || fields[0] != "1" || (fields[1] != "-" && !IsRFC3339(fields[1], dates)) {
        return s, false;
      }
      if fields[2] != "-" {
        host := fields[2];
      }
      if |fields| < 7 {
        return "", true;
      }
      after := SkipStructuredData(fields[6]);
      return after, true;
    }

    method Fill(dates: Dates)
      requires View() == Parsed("", -1, "")
      modifies this
      ensures View() == ParsedAs(raw, dates)
    {
      var rest := raw;
      var cut := CutPriority(rest);
      if cut.Some? {
        priority, rest := cut.value.0, cut.value.1;
        var after, ok := CutRFC5424(rest, dates);
        if ok {
          text := Trim(TrimPrefix(TrimPrefix(after, " "), BOM));
          return;
        }
      }
      var stamp := CutTimestamp(rest, dates);
      if stamp.Some? {
        rest := stamp.value;
        var named := CutHost(rest);
        if named.Some? {
          host, rest := named.value.0, named.value.1;
        }
      }
      text := Trim(rest);
    }
  }

  /** Parse never rejects. */
  method Parse(raw: string, dates: Dates) returns (msg: Message)
    ensures fresh(msg) && msg.raw == raw && msg.View() == ParsedAs(raw, dates)
  {
    msg := new Message(raw);
    msg.Fill(dates);
  }

  function Facility(priority: int): int {
    if priority < 0 then -1 else priority / 8
  }

  function Severity(priority: int): int {
    if priority < 0 then -1 else priority % 8
  }

  /** Facility and severity make up the priority of every parsed message that has one. */
  lemma PriorityParts(raw: string, dates: Dates)
    ensures var p := ParsedAs(raw, dates).priority;
            && -1 <= p <= 191
            && (p >= 0 ==> 8 * Facility(p) + Severity(p) == p && Facility(p) <= 23 && 0 <= Severity(p) <= 7)
            && (p == -1 <==> CutPriority(raw).None?)
            && (p == -1 ==> Facility(p) == -1 && Severity(p) == -1)
  {
  }

  // ---------- Nothing is made up ----------

  predicate Suffix(t: string, s: string) {
    |t| <= |s| && s[|s| - |t|..] == t
  }

  lemma SuffixOfSuffix(u: string, t: string, s: string)
    requires Suffix(u, t) && Suffix(t, s)
    ensures Suffix(u, s)
  {
    assert t[|t| - |u|..] == s[|s| - |t|..][|t| - |u|..];
  }

  lemma TailIsSuffix(s: string, k: nat)
    requires k <= |s|
    ensures Suffix(s[k..], s)
  {
  }

  function Last(fields: seq<string>): string
    requires fields != []
  {
    fields[|fields| - 1]
  }

  lemma {:induction false} LastFieldIsSuffix(s: string, n: nat)
    requires n > 0
    ensures Suffix(Last(SplitN(s, n)), s)
  {
    var i := IndexOf(s, ' ');
    if n > 1 && i < |s| {
      LastFieldIsSuffix(s[i + 1..], n - 1);
      LastOfCons(s[..i], SplitN(s[i + 1..], n - 1));
      TailIsSuffix(s, i + 1);
      SuffixOfSuffix(Last(SplitN(s[i + 1..], n - 1)), s[i + 1..], s);
    } else {
      TailIsSuffix(s, 0);
    }
  }

  lemma LastOfCons(x: string, q: seq<string>)
    requires q != []
    ensures Last([x] + q) == Last(q)
  {
  }

  lemma {:induction false} SkipIsSuffix(s: string)
    ensures Suffix(SkipElements(s), s)
    decreases |s|
  {
    if "[" <= s && End(s) >= 0 {
      SkipIsSuffix(s[End(s) + 1..]);
      TailIsSuffix(s, End(s) + 1);
      SuffixOfSuffix(SkipElements(s[End(s) + 1..]), s[End(s) + 1..], s);
    }
  }

  lemma HeaderLeavesSuffix(s: string, dates: Dates)
    requires Header(s, dates).Some?
    ensures Suffix(Header(s, dates).value.1, s)
  {
    var fields := SplitN(s, 7);
    if |fields| == 7 {
      LastFieldIsSuffix(s, 7);
      SkipIsSuffix(fields[6]);
      SuffixOfSuffix(Skip(fields[6]), fields[6], s);
    }
  }

  lemma BSDTextIsSuffix(s: string, priority: int, dates: Dates) returns (t: string)
    ensures Suffix(t, s) && ParsedBSD(s, priority, dates).text == Trim(t)
  {
    t := s;
    if CutTimestamp(s, dates).Some? {
      t := CutTimestamp(s, dates).value;
      if CutHost(t).Some? {
        SuffixOfSuffix(CutHost(t).value.1, t, s);
        t := CutHost(t).value.1;
      }
    }
  }

  /**
   * Whatever the datagram, the text is a trimmed tail of it: headers are cut off, nothing is dropped from the
   * middle.
   */
  lemma TextIsTrimmedTail(raw: string, dates: Dates) returns (t: string)
    ensures Suffix(t, raw) && ParsedAs(raw, dates).text == Trim(t)
  {
    var cut := CutPriority(raw);
    if cut.None? {
      t := BSDTextIsSuffix(raw, -1, dates);
    } else {
      var rest := cut.value.1;
      if Header(rest, dates).None? {
        t := BSDTextIsSuffix(rest, cut.value.0, dates);
      } else {
        HeaderLeavesSuffix(rest, dates);
        var after := Header(rest, dates).value.1;
        t := TrimPrefix(TrimPrefix(after, " "), BOM);
        SuffixOfSuffix(t, after, rest);
      }
      SuffixOfSuffix(t, rest, raw);
    }
  }

  // ---------- Printing a message and parsing it ----------

  /** An RFC 5424 message: "" as host is the nil value; a message part is optional, its byte order mark too. */
  datatype Printable = Printable(
    priority: nat, timestamp: string, host: string, app: string, procId: string, msgId: string,
    data: seq<Element>, hasText: bool, mark: bool, text: string)

  function PrintTail(m: Printable): string {
    if m.hasText then " " + (if m.mark then [0xEF as char, 0xBB as char, 0xBF as char] else "") + m.text else ""
  }

  function PrintHost(m: Printable): string {
    if m.host == "" then "-" else m.host
  }

  function PrintFields(fields: seq<string>): string
    requires fields != []
  {
    if |fields| == 1 then fields[0] else fields[0] + " " + PrintFields(fields[1..])
  }

  function HeaderFields(m: Printable, last: string): seq<string> {
    ["1", m.timestamp, PrintHost(m), m.app, m.procId, m.msgId, last]
  }

  function Print(m: Printable): string {
    "<" + Decimal(m.priority) + ">" + PrintFields(HeaderFields(m, PrintData(m.data, PrintTail(m))))
  }

  predicate HeaderOk(m: Printable, dates: Dates) {
    && (m.timestamp == "-" || IsRFC3339(m.timestamp, dates))
    && ' ' !in m.timestamp && ' ' !in m.host && ' ' !in m.app && ' ' !in m.procId && ' ' !in m.msgId
    && m.host != "-"
  }

  predicate PrintableOk(m: Printable, dates: Dates) {
    && m.priority <= 191 && HeaderOk(m, dates)
    && (forall e | e in m.data :: ElementOk(e))
    && Trimmed(m.text) && !(BOM <= m.text)
    && (!m.hasText ==> m.text == "")
  }

  lemma DigitsOnly(n: nat)
    requires n <= 191
    ensures Atoi(Decimal(n)) == Some(n) && 1 <= |Decimal(n)| <= 3 && '>' !in Decimal(n)
  {
    DecimalIs(n);
    assert IsDigit(Decimal(n)[0]);
    forall k | 0 <= k < |Decimal(n)| ensures Decimal(n)[k] != '>' { assert IsDigit(Decimal(n)[k]); }
  }

  lemma Bracketed(d: string, rest: string)
    requires '>' !in d
    ensures var s := "<" + d + ">" + rest;
            IndexOf(s, '>') == |d| + 1 && s[1..|d| + 1] == d && s[|d| + 2..] == rest && "<" <= s
  {
    IndexOfIs("<" + d, '>', rest);
    assert "<" + d + ">" + rest == ("<" + d) + ['>'] + rest;
  }

  lemma PriorityCut(s: string, n: nat, rest: string) returns (d: string)
    requires CutPriority(s) == Some((n, rest))
    ensures n <= 191 && 1 <= |d| <= 3 && '>' !in d && Atoi(d) == Some(n) && s == "<" + d + ">" + rest
  {
    var end := IndexOf(s, '>');
    d := s[1..end];
    assert forall c | c in d :: c in s[..end];
  }

  /** A priority is cut off exactly when one to three characters between brackets are a number from 0 to 191. */
  lemma PriorityIff(s: string, n: nat, rest: string)
    ensures CutPriority(s) == Some((n, rest))
            <==> n <= 191 && exists d :: 1 <= |d| <= 3 && '>' !in d && Atoi(d) == Some(n) && s == "<" + d + ">" + rest
  {
    if CutPriority(s) == Some((n, rest)) {
      var d := PriorityCut(s, n, rest);
    }
    if d :| n <= 191 && 1 <= |d| <= 3 && '>' !in d && Atoi(d) == Some(n) && s == "<" + d + ">" + rest {
      Bracketed(d, rest);
    }
  }

  lemma PriorityPrinted(n: nat, rest: string)
    requires n <= 191
    ensures CutPriority("<" + Decimal(n) + ">" + rest) == Some((n, rest))
  {
    DigitsOnly(n);
    Bracketed(Decimal(n), rest);
  }

  lemma SplitField(a: string, b: string, n: nat)
    requires ' ' !in a && n > 1
    ensures SplitN(a + " " + b, n) == [a] + SplitN(b, n - 1)
  {
    IndexOfIs(a, ' ', b);
    assert a + [' '] + b == a + " " + b;
    assert (a + " " + b)[..|a|] == a && (a + " " + b)[|a| + 1..] == b;
  }

  lemma HeaderPrinted(m: Printable, last: string, dates: Dates)
    requires HeaderOk(m, dates)
    ensures Header(PrintFields(HeaderFields(m, last)), dates) == Some((m.host, Skip(last)))
  {
    SplitPrinted(HeaderFields(m, last), 7);
  }

  predicate NoSpace(field: string) {
    ' ' !in field
  }

  /** Fewer than n fields, none with a space in it, or n of which the last may hold spaces. */
  predicate Fields(f: seq<string>, n: nat) {
    1 <= |f| <= n && forall i | 0 <= i < |f| && i < n - 1 :: NoSpace(f[i])
  }

  lemma {:induction false} SplitPrinted(f: seq<string>, n: nat)
    requires Fields(f, n)
    ensures SplitN(PrintFields(f), n) == f
  {
    assert n > 1 ==> NoSpace(f[0]);
    if |f| == 1 {
      OneField(f[0], n);
      assert f == [f[0]];
    } else {
      FieldsAfter(f, n);
      SplitPrinted(f[1..], n - 1);
      SplitFirst(f[0], f[1..], n);
      assert f == [f[0]] + f[1..];
    }
  }

  lemma SplitFirst(first: string, rest: seq<string>, n: nat)
    requires n > 1 && NoSpace(first) && rest != [] && SplitN(PrintFields(rest), n - 1) == rest
    ensures SplitN(PrintFields([first] + rest), n) == [first] + rest
  {
    SplitField(first, PrintFields(rest), n);
    assert ([first] + rest)[1..] == rest;
  }

  lemma OneField(s: string, n: nat)
    requires n == 1 || (n > 1 && ' ' !in s)
    ensures SplitN(s, n) == [s]
  {
  }

  lemma FieldsAfter(f: seq<string>, n: nat)
    requires Fields(f, n) && |f| > 1
    ensures Fields(f[1..], n - 1)
  {
    forall i | 0 <= i < |f[1..]| && i < n - 2 ensures NoSpace(f[1..][i]) { assert NoSpace(f[i + 1]); }
  }

  lemma {:induction false} EveryTextSplits(s: string, n: nat)
    requires n > 0
    ensures Fields(SplitN(s, n), n) && PrintFields(SplitN(s, n)) == s
  {
    var i := IndexOf(s, ' ');
    if n > 1 && i < |s| {
      var rest := SplitN(s[i + 1..], n - 1);
      EveryTextSplits(s[i + 1..], n - 1);
      assert ([s[..i]] + rest)[1..] == rest;
      assert s == s[..i] + " " + s[i + 1..];
    } else {
      assert s[..i] == s || n == 1;
    }
  }

  /**
   * What follows a priority is the newer header exactly when it is version 1, a nil or RFC 3339 time, and four more
   * fields at least; a nil host is none, and without structured data nothing is left.
   */
  lemma HeaderIff(f: seq<string>, dates: Dates)
    requires Fields(f, 7)
    ensures Header(PrintFields(f), dates)
            == if |f| >= 6 && f[0] == "1" && (f[1] == "-" || (|f[1]| > 10 && f[1][10] == 'T' && dates.rfc3339(f[1])))
               then Some((if f[2] == "-" then "" else f[2], if |f| == 7 then Skip(f[6]) else ""))
               else None
  {
    SplitPrinted(f, 7);
  }

  /** And every text is such fields. */
  lemma FieldsOf(s: string) returns (f: seq<string>)
    ensures Fields(f, 7) && PrintFields(f) == s
  {
    f := SplitN(s, 7);
    EveryTextSplits(s, 7);
  }

  lemma TrimNothing(s: string)
    requires Trimmed(s)
    ensures Trim(s) == s
  {
  }

  lemma {:induction false} TrimShortens(s: string)
    ensures |TrimLeft(s)| <= |s| && |TrimRight(s)| <= |s|
  {
    if s != "" {
      TrimShortens(s[1..]);
      TrimShortens(s[..|s| - 1]);
    }
  }

  lemma TailText(m: Printable, dates: Dates)
    requires PrintableOk(m, dates)
    ensures MessageText(PrintTail(m)) == m.text
  {
    TrimNothing(m.text);
    var tail := PrintTail(m);
    if m.hasText {
      assert TrimPrefix(tail, " ") == (if m.mark then BOM else "") + m.text;
      if m.mark {
        assert BOM <= BOM + m.text && (BOM + m.text)[|BOM|..] == m.text;
      } else {
        assert "" + m.text == m.text;
      }
    }
  }

  /** A message whose data ran on into it loses text. */
  lemma EatenText(m: Printable, left: string, dates: Dates)
    requires PrintableOk(m, dates) && m.text != "" && Eaten(left, PrintTail(m))
    ensures MessageText(left) != m.text
  {
    var tail := PrintTail(m);
    var mark := if m.mark then BOM else "";
    var after := TrimPrefix(TrimPrefix(left, " "), BOM);
    TrimShortens(after);
    TrimShortens(TrimLeft(after));
    assert |MessageText(left)| <= |left|;
    if left != "" {
      IndexAfter(" " + mark, ']', m.text);
      assert m.hasText && tail == " " + mark + m.text;
    }
  }

  /**
   * Printing a message and parsing it returns its priority and host, and its text exactly when its data does not run
   * on into it: the last element has a parameter, or an id that does not end in an odd run of backslashes.
   */
  lemma RoundTrip(m: Printable, dates: Dates)
    requires PrintableOk(m, dates)
    ensures ParsedAs(Print(m), dates).host == m.host && ParsedAs(Print(m), dates).priority == m.priority
    ensures ParsedAs(Print(m), dates).text == m.text <==> AllClose(m.data) || m.text == ""
  {
    var tail := PrintTail(m);
    var last := PrintData(m.data, tail);
    PriorityPrinted(m.priority, PrintFields(HeaderFields(m, last)));
    HeaderPrinted(m, last, dates);
    assert tail == "" || tail[0] == ' ';
    DataSkipped(m.data, tail);
    if AllClose(m.data) {
      TailText(m, dates);
    } else {
      LostText(m, Skip(last), dates);
    }
  }

  lemma DataSkipped(es: seq<Element>, rest: string)
    requires !("[" <= rest) && forall e | e in es :: ElementOk(e)
    ensures var left := Skip(PrintData(es, rest)); if AllClose(es) then left == rest else Eaten(left, rest)
  {
    if es == [] {
      assert ("-" + rest)[1..] == rest;
    } else {
      SkipPrinted(es, rest);
      StartsWithBracket(es, rest);
    }
  }

  lemma LostText(m: Printable, left: string, dates: Dates)
    requires PrintableOk(m, dates) && Eaten(left, PrintTail(m))
    ensures MessageText(left) == m.text <==> m.text == ""
  {
    if m.text != "" {
      EatenText(m, left, dates);
    }
  }

  // ---------- The older header ----------

  /** A BSD date, which starts with a month's name, or an RFC 3339 one, which has no spaces and is longer. */
  predicate StampOk(stamp: string, dates: Dates) {
    || (|stamp| == 15 && dates.bsd(stamp) && stamp[0] != '1')
    || (|stamp| > 15 && ' ' !in stamp && stamp[10] == 'T' && dates.rfc3339(stamp))
  }

  lemma StampCut(stamp: string, rest: string, dates: Dates)
    requires StampOk(stamp, dates)
    ensures CutTimestamp(stamp + " " + rest, dates) == Some(rest)
  {
    var s := stamp + " " + rest;
    assert s[..|stamp|] == stamp && s[|stamp| + 1..] == rest;
    if |stamp| > BSD_LENGTH {
      assert s[BSD_LENGTH] == stamp[BSD_LENGTH] && stamp[BSD_LENGTH] in stamp;
      assert s == stamp + [' '] + rest;
      IndexOfIs(stamp, ' ', rest);
    }
  }

  lemma StampIsNoHeader(stamp: string, rest: string, dates: Dates)
    requires StampOk(stamp, dates)
    ensures Header(stamp + " " + rest, dates).None?
  {
    var s := stamp + " " + rest;
    if |stamp| > BSD_LENGTH {
      IndexOfIs(stamp, ' ', rest);
      assert s == stamp + [' '] + rest;
      assert SplitN(s, 7)[0] == s[..|stamp|];
    } else {
      assert s[0] == stamp[0];
      assert SplitN(s, 7)[0] == s[..IndexOf(s, ' ')];
    }
  }

  lemma HostCut(host: string, text: string)
    requires host != "" && ' ' !in host
    ensures CutHost(host + " " + text)
            == if host[|host| - 1] == ':' || '[' in host then None else Some((host, text))
  {
    var s := host + " " + text;
    assert s == host + [' '] + text && s[..|host|] == host && s[|host| + 1..] == text;
    IndexOfIs(host, ' ', text);
  }

  /**
   * Printing a message with the older header and parsing it returns its parts; what ends in a colon or holds a bracket
   * where the host belongs is a tag, and stays in the text.
   */
  lemma BSDRoundTrip(priority: nat, stamp: string, host: string, text: string, dates: Dates)
    requires priority <= 191 && StampOk(stamp, dates) && host != "" && ' ' !in host && Trimmed(text)
    ensures ParsedAs("<" + Decimal(priority) + ">" + (stamp + " " + (host + " " + text)), dates)
            == if host[|host| - 1] == ':' || '[' in host then Parsed("", priority, Trim(host + " " + text))
               else Parsed(host, priority, text)
  {
    PriorityPrinted(priority, stamp + " " + (host + " " + text));
    StampIsNoHeader(stamp, host + " " + text, dates);
    StampCut(stamp, host + " " + text, dates);
    HostCut(host, text);
    TrimNothing(text);
  }

  /** So does one without a priority, whose priority is then -1. */
  lemma BareBSDRoundTrip(stamp: string, host: string, text: string, dates: Dates)
    requires StampOk(stamp, dates) && stamp[0] != '<' && host != "" && ' ' !in host && Trimmed(text)
    ensures ParsedAs(stamp + " " + (host + " " + text), dates)
            == if host[|host| - 1] == ':' || '[' in host then Parsed("", -1, Trim(host + " " + text))
               else Parsed(host, -1, text)
  {
    assert (stamp + " " + (host + " " + text))[0] == stamp[0];
    StampCut(stamp, host + " " + text, dates);
    HostCut(host, text);
    TrimNothing(text);
  }

  /** A date and one word is that word, without a host. */
  lemma OneWordAfterStamp(stamp: string, word: string, dates: Dates)
    requires StampOk(stamp, dates) && stamp[0] != '<' && ' ' !in word
    ensures ParsedAs(stamp + " " + word, dates) == Parsed("", -1, Trim(word))
  {
    assert (stamp + " " + word)[0] == stamp[0];
    StampCut(stamp, word, dates);
    assert IndexOf(word, ' ') == |word|;
  }

  /** Without a priority and a date that parses, in either form, the whole datagram is the text. */
  lemma UnrecognisedIsText(raw: string, dates: Dates)
    requires raw != "" ==> raw[0] != '<'
    requires !(|raw| > 15 && raw[15] == ' ' && dates.bsd(raw[..15]))
    requires var word := raw[..IndexOf(raw, ' ')]; !(|word| > 10 && word[10] == 'T' && dates.rfc3339(word))
    ensures ParsedAs(raw, dates) == Parsed("", -1, Trim(raw))
  {
  }

  /** A priority in front of anything but an RFC 5424 header changes the priority and nothing else. */
  lemma PriorityAlone(n: nat, s: string, dates: Dates)
    requires n <= 191 && (s != "" ==> s[0] != '<') && Header(s, dates).None?
    ensures ParsedAs("<" + Decimal(n) + ">" + s, dates) == ParsedAs(s, dates).(priority := n)
  {
    PriorityPrinted(n, s);
  }

  predicate SpaceOrZero(c: char) {
    c == ' ' || c == '\t' || c == '\r' || c == '\n' || c == '\0'
  }

  /** Spaces, tabs, line ends and zero bytes. */
  ghost predicate AllBlank(s: string) {
    forall c | c in s :: SpaceOrZero(c)
  }

  /** Trimming takes off exactly those around a text. */
  lemma {:induction false} TrimIs(a: string, t: string, b: string)
    requires AllBlank(a) && AllBlank(b) && Trimmed(t) && t != ""
    ensures Trim(a + t + b) == t
    decreases |a| + |b|
  {
    if a != "" {
      assert a[0] in a && AllBlank(a[1..]);
      assert (a + t + b)[1..] == a[1..] + t + b;
      TrimIs(a[1..], t, b);
    } else if b != "" {
      var n := |b| - 1;
      assert b[n] in b && AllBlank(b[..n]);
      assert a + t + b == t + b && a + t + b[..n] == t + b[..n] && (t + b)[..|t + b| - 1] == t + b[..n];
      TrimIs(a, t, b[..n]);
    } else {
      assert a + t + b == t;
    }
  }
}
