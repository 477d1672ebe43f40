// Searching strings for a character, and numbers in decimal.
module Text {
  import opened Wrappers

  /** The first c in s; the length if there is none. */
  function IndexOf(s: string, c: char): (i: nat)
    ensures i <= |s| && c !in s[..i] && (i < |s| ==> s[i] == c)
  {
    if s == "" || s[0] == c then 0
    else
      var i := IndexOf(s[1..], c);
      assert s[..i + 1] == [s[0]] + s[1..][..i];
      i + 1
  }

  lemma {:induction false} IndexOfIs(a: string, c: char, b: string)
    requires c !in a
    ensures IndexOf(a + [c] + b, c) == |a|
  {
    if a == "" {
      assert (a + [c] + b)[0] == c;
    } else {
      assert (a + [c] + b)[1..] == a[1..] + [c] + b;
      IndexOfIs(a[1..], c, b);
    }
  }

  lemma {:induction false} IndexOfFirst(s: string, c: char, i: nat)
    requires i < |s| && s[i] == c
    ensures IndexOf(s, c) <= i
  {
    if i > 0 && s[0] != c { IndexOfFirst(s[1..], c, i - 1); }
  }

  lemma {:induction false} IndexAfter(a: string, c: char, b: string)
    requires c !in a
    ensures IndexOf(a + b, c) >= |a|
  {
    if a != "" {
      assert (a + b)[1..] == a[1..] + b;
      IndexAfter(a[1..], c, b);
    }
  }

  predicate IsDigit(c: char) {
    '0' <= c <= '9'
  }

  function DigitOf(d: nat): (c: char)
    requires d < 10
    ensures IsDigit(c)
  {
    ('0' as int + d) as char
  }

  function Value(s: string): Option<nat> {
    if s == "" then Some(0)
    else
      var front, c := Value(s[..|s| - 1]), s[|s| - 1];
      if front.None? || !IsDigit(c) then None else Some(10 * front.value + (c as int - '0' as int))
  }

  lemma NumbersAreDecimal()
    ensures Value("1970") == Some(1970) && Value("19x0").None?
  {
    assert "1970"[..3] == "197" && "197"[..2] == "19" && "19"[..1] == "1" && "1"[..0] == "";
    assert "19x0"[..3] == "19x";
  }

  function Decimal(n: nat): string {
    if n < 10 then [DigitOf(n)] else Decimal(n / 10) + [DigitOf(n % 10)]
  }

  lemma {:induction false} DecimalIs(n: nat)
    ensures Value(Decimal(n)) == Some(n) && Decimal(n) != ""
    ensures forall k | 0 <= k < |Decimal(n)| :: IsDigit(Decimal(n)[k])
    ensures n < 10 ==> |Decimal(n)| == 1
    ensures n < 100 ==> |Decimal(n)| <= 2
    ensures n < 1000 ==> |Decimal(n)| <= 3
  {
    if n < 10 {
      assert Decimal(n)[..0] == "" && Value("") == Some(0);
    } else {
      DecimalIs(n / 10);
      assert Decimal(n)[..|Decimal(n)| - 1] == Decimal(n / 10);
    }
  }
}
