// The cache of compiled regular expressions behind a script's re module.
module RegexCache {
  import opened Wrappers

  const LIMIT: nat := 256

  // ---------- What should be in the cache ----------

  function Without(q: seq<string>, p: string): seq<string> {
    if q == [] then []
    else if q[0] == p then Without(q[1..], p)
    else [q[0]] + Without(q[1..], p)
  }

  function First(q: seq<string>, n: nat): seq<string> {
    if |q| <= n then q else q[..n]
  }

  /** The distinct patterns of a history of lookups that compile, most recently used first. */
  function Recency<T>(history: seq<string>, compile: string -> Option<T>): seq<string> {
    if history == [] then []
    else
      var before, p := Recency(history[..|history| - 1], compile), history[|history| - 1];
      if compile(p).None? then before else [p] + Without(before, p)
  }

  lemma {:induction false} WithoutAbsent(q: seq<string>, p: string)
    requires p !in q
    ensures Without(q, p) == q
  {
    if q != [] {
      assert q == [q[0]] + q[1..];
      WithoutAbsent(q[1..], p);
    }
  }

  /** In a list without duplicates, removing the pattern at i closes the gap. */
  lemma {:induction false} WithoutAt(q: seq<string>, i: nat)
    requires NoDup(q) && i < |q|
    ensures Without(q, q[i]) == q[..i] + q[i + 1..]
  {
    assert NoDup(q[1..]) && q == [q[0]] + q[1..];
    if i == 0 {
      WithoutAbsent(q[1..], q[0]);
    } else {
      WithoutAt(q[1..], i - 1);
    }
  }

  lemma WithoutIs(q: seq<string>, p: string)
    requires NoDup(q)
    ensures NoDup(Without(q, p)) && forall x :: x in Without(q, p) <==> x in q && x != p
  {
    if p in q {
      var k :| 0 <= k < |q| && q[k] == p;
      var r := q[..k] + q[k + 1..];
      WithoutAt(q, k);
      assert forall i | 0 <= i < |r| :: r[i] == q[if i < k then i else i + 1];
      forall x | x in q && x != p ensures x in r {
        var m :| 0 <= m < |q| && q[m] == x;
        assert r[if m < k then m else m - 1] == x;
      }
    } else {
      WithoutAbsent(q, p);
    }
  }

  /** Position of the last lookup of p, counting from 1; 0 if there was none. */
  function LastUse(history: seq<string>, p: string): nat {
    if history == [] then 0
    else if history[|history| - 1] == p then |history|
    else LastUse(history[..|history| - 1], p)
  }

  lemma {:induction false} LastUseIs(history: seq<string>, p: string)
    ensures LastUse(history, p) <= |history|
    ensures LastUse(history, p) > 0 <==> p in history
    ensures LastUse(history, p) > 0 ==> history[LastUse(history, p) - 1] == p
    ensures forall k | LastUse(history, p) <= k < |history| :: history[k] != p
  {
    if history != [] {
      assert history == history[..|history| - 1] + [history[|history| - 1]];
      LastUseIs(history[..|history| - 1], p);
    }
  }

  /** Recency holds exactly the patterns looked up that compile, none twice. */
  lemma {:induction false} RecencyIs<T>(history: seq<string>, compile: string -> Option<T>)
    ensures NoDup(Recency(history, compile))
    ensures forall p :: p in Recency(history, compile) <==> p in history && compile(p).Some?
  {
    if history != [] {
      var before, p := history[..|history| - 1], history[|history| - 1];
      assert history == before + [p];
      RecencyIs(before, compile);
      WithoutIs(Recency(before, compile), p);
    }
  }

  /** It is ordered by last use: a pattern stands before another exactly when it was used more recently. */
  lemma {:induction false} RecencyOrder<T>(history: seq<string>, compile: string -> Option<T>, i: nat, j: nat)
    requires i < j < |Recency(history, compile)|
    ensures LastUse(history, Recency(history, compile)[i]) > LastUse(history, Recency(history, compile)[j])
  {
    var before, p := history[..|history| - 1], history[|history| - 1];
    var q := Recency(before, compile);
    RecencyIs(before, compile);
    if compile(p).None? {
      assert q[i] in q && q[j] in q;
      RecencyOrder(before, compile, i, j);
    } else if i == 0 {
      WithoutNever(q, p, j - 1);
      LastUseIs(before, Without(q, p)[j - 1]);
    } else {
      assert LastUse(history, Without(q, p)[i - 1]) == LastUse(before, Without(q, p)[i - 1]) by {
        WithoutNever(q, p, i - 1);
      }
      assert LastUse(history, Without(q, p)[j - 1]) == LastUse(before, Without(q, p)[j - 1]) by {
        WithoutNever(q, p, j - 1);
      }
      var a, b := WithoutIndexes(q, p, i - 1, j - 1);
      RecencyOrder(before, compile, a, b);
    }
  }

  lemma WithoutNever(q: seq<string>, p: string, i: nat)
    requires NoDup(q) && i < |Without(q, p)|
    ensures Without(q, p)[i] != p
  {
    WithoutIs(q, p);
    assert Without(q, p)[i] in Without(q, p);
  }

  lemma {:induction false} WithoutIndexes(q: seq<string>, p: string, i: nat, j: nat) returns (a: nat, b: nat)
    requires NoDup(q) && i < j < |Without(q, p)|
    ensures a < b < |q| && q[a] == Without(q, p)[i] && q[b] == Without(q, p)[j]
  {
    if p in q {
      var k :| 0 <= k < |q| && q[k] == p;
      WithoutAt(q, k);
      a := if i < k then i else i + 1;
      b := if j < k then j else j + 1;
    } else {
      WithoutAbsent(q, p);
      a, b := i, j;
    }
  }

  /** The patterns that compile and were used after p was last used. */
  ghost function MoreRecent<T>(history: seq<string>, compile: string -> Option<T>, p: string): set<string> {
    set x | x in history && compile(x).Some? && LastUse(history, x) > LastUse(history, p)
  }

  lemma {:induction false} NoDupCount(q: seq<string>, s: set<string>)
    requires NoDup(q) && forall x :: x in s <==> x in q
    ensures |s| == |q|
  {
    if q == [] {
      assert s == {};
    } else {
      var x, rest := q[|q| - 1], q[..|q| - 1];
      assert q == rest + [x];
      NoDupCount(rest, s - {x});
    }
  }

  /**
   * A pattern is among the first n exactly when it was looked up, compiles, and fewer than n others were used
   * since.
   */
  lemma CachedIff<T>(history: seq<string>, compile: string -> Option<T>, n: nat, p: string)
    ensures p in First(Recency(history, compile), n)
            <==> p in history && compile(p).Some? && |MoreRecent(history, compile, p)| < n
  {
    var q := Recency(history, compile);
    RecencyIs(history, compile);
    if p in history && compile(p).Some? {
      var k :| 0 <= k < |q| && q[k] == p;
      forall x ensures x in MoreRecent(history, compile, p) <==> x in q[..k] {
        MoreRecentIsBefore(history, compile, k, x);
      }
      NoDupCount(q[..k], MoreRecent(history, compile, p));
      FirstHas(q, n, k);
    }
  }

  lemma MoreRecentIsBefore<T>(history: seq<string>, compile: string -> Option<T>, k: nat, x: string)
    requires k < |Recency(history, compile)|
    ensures x in MoreRecent(history, compile, Recency(history, compile)[k]) <==> x in Recency(history, compile)[..k]
  {
    var q := Recency(history, compile);
    RecencyIs(history, compile);
    if x in q {
      var m :| 0 <= m < |q| && q[m] == x;
      if m < k { RecencyOrder(history, compile, m, k); }
      if k < m { RecencyOrder(history, compile, k, m); }
    }
  }

  // ---------- One lookup ----------

  lemma FirstHas(q: seq<string>, n: nat, k: nat)
    requires k < |q|
    ensures k < n ==> q[k] in First(q, n)
  {
    if k < n { assert First(q, n)[k] == q[k]; }
  }

  /** The element at i moved to the front, those before it shifted by one. */
  function Moved<T>(q: seq<T>, i: nat): (r: seq<T>)
    requires i < |q|
    ensures |r| == |q| && r[0] == q[i]
    ensures forall k | 0 < k < |q| :: r[k] == if k <= i then q[k - 1] else q[k]
  {
    [q[i]] + q[..i] + q[i + 1..]
  }

  /** A cached pattern moves to the front, whatever the cache does not hold. */
  lemma HitMovesToFront(all: seq<string>, n: nat, i: nat)
    requires NoDup(all) && i < |First(all, n)|
    ensures First([all[i]] + Without(all, all[i]), n) == Moved(First(all, n), i)
  {
    WithoutAt(all, i);
    MovedIs(all, i);
    FirstMoved(all, n, i);
  }

  lemma MovedIs(q: seq<string>, i: nat)
    requires i < |q|
    ensures [q[i]] + (q[..i] + q[i + 1..]) == Moved(q, i)
  {
  }

  lemma FirstMoved(q: seq<string>, n: nat, i: nat)
    requires i < |First(q, n)|
    ensures First(Moved(q, i), n) == Moved(First(q, n), i)
  {
  }

  /** A pattern not cached takes the place of the least recently used one. */
  lemma MissDropsOldest(all: seq<string>, n: nat, p: string)
    requires NoDup(all) && n > 0 && p !in First(all, n)
    ensures First([p] + Without(all, p), n) == [p] + First(First(all, n), n - 1)
  {
    if p in all {
      var k :| 0 <= k < |all| && all[k] == p;
      FirstHas(all, n, k);
      WithoutAt(all, k);
      assert (all[..k] + all[k + 1..])[..n - 1] == all[..n - 1] == all[..n][..n - 1];
      assert ([p] + (all[..k] + all[k + 1..]))[..n] == [p] + (all[..k] + all[k + 1..])[..n - 1] || |all| == n;
    } else {
      WithoutAbsent(all, p);
      if |all| >= n { assert ([p] + all)[..n] == [p] + all[..n - 1] == [p] + all[..n][..n - 1] || |all| == n; }
    }
  }

  datatype Entry<+T> = Entry(pattern: string, re: T)

  function Patterns<T>(entries: seq<Entry<T>>): (q: seq<string>)
    ensures |q| == |entries| && forall i | 0 <= i < |q| :: q[i] == entries[i].pattern
  {
    seq(|entries|, i requires 0 <= i < |entries| => entries[i].pattern)
  }

  /** The cache holds the LIMIT most recently used patterns, in recency order, each with its own compilation. */
  ghost predicate Holds<T(!new)>(entries: seq<Entry<T>>, history: seq<string>, compile: string -> Option<T>) {
    && Patterns(entries) == First(Recency(history, compile), LIMIT)
    && (forall i | 0 <= i < |entries| :: compile(entries[i].pattern) == Some(entries[i].re))
  }

  lemma PatternsMoved<T>(entries: seq<Entry<T>>, i: nat)
    requires i < |entries|
    ensures Patterns(Moved(entries, i)) == Moved(Patterns(entries), i)
  {
  }

  lemma RecencySnoc<T>(history: seq<string>, compile: string -> Option<T>, p: string)
    ensures Recency(history + [p], compile)
            == if compile(p).None? then Recency(history, compile) else [p] + Without(Recency(history, compile), p)
  {
    assert (history + [p])[..|history|] == history;
  }

  lemma HitKeeps<T(!new)>(entries: seq<Entry<T>>, history: seq<string>, compile: string -> Option<T>, i: nat)
    requires Holds(entries, history, compile) && i < |entries|
    ensures Holds(Moved(entries, i), history + [entries[i].pattern], compile)
  {
    RecencyIs(history, compile);
    RecencySnoc(history, compile, entries[i].pattern);
    assert Patterns(entries)[i] == entries[i].pattern;
    HitMovesToFront(Recency(history, compile), LIMIT, i);
    PatternsMoved(entries, i);
  }

  lemma MissKeeps<T(!new)>(entries: seq<Entry<T>>, history: seq<string>, compile: string -> Option<T>, p: string, re: T)
    requires Holds(entries, history, compile) && compile(p) == Some(re)
    requires forall k | 0 <= k < |entries| :: entries[k].pattern != p
    ensures var kept := if |entries| >= LIMIT then entries[..LIMIT - 1] else entries;
            Holds([Entry(p, re)] + kept, history + [p], compile)
  {
    RecencyIs(history, compile);
    RecencySnoc(history, compile, p);
    MissDropsOldest(Recency(history, compile), LIMIT, p);
    PatternsKept(entries, Entry(p, re));
  }

  lemma PatternsKept<T>(entries: seq<Entry<T>>, e: Entry<T>)
    requires |entries| <= LIMIT
    ensures var kept := if |entries| >= LIMIT then entries[..LIMIT - 1] else entries;
            Patterns([e] + kept) == [e.pattern] + First(Patterns(entries), LIMIT - 1)
  {
  }

  /** So the cache holds exactly the patterns looked up that compile and have fewer than 256 others used since. */
  lemma HeldIff<T(!new)>(entries: seq<Entry<T>>, history: seq<string>, compile: string -> Option<T>, p: string)
    requires Holds(entries, history, compile)
    ensures (exists i | 0 <= i < |entries| :: entries[i].pattern == p)
            <==> p in history && compile(p).Some? && |MoreRecent(history, compile, p)| < 256
  {
    CachedIff(history, compile, LIMIT, p);
    assert (exists i | 0 <= i < |entries| :: entries[i].pattern == p) <==> p in Patterns(entries) by {
      if i :| 0 <= i < |entries| && entries[i].pattern == p { assert Patterns(entries)[i] == p; }
    }
  }

  class Cache<T(!new)> {
    const compile: string -> Option<T>
    var entries: seq<Entry<T>>
    ghost var history: seq<string>

    ghost predicate Valid()
      reads this
    {
      Holds(entries, history, compile)
    }

    constructor (compile: string -> Option<T>)
      ensures Valid() && history == [] && this.compile == compile
    {
      this.compile := compile;
      entries, history := [], [];
    }

    /** Every lookup returns what compiling the pattern afresh would. */
    method Get(pattern: string) returns (re: Option<T>)
      requires Valid()
      modifies this
      ensures Valid() && history == old(history) + [pattern]
      ensures re == compile(pattern)
    {
      for i := 0 to |entries|
        invariant Valid() && entries == old(entries) && history == old(history)
        invariant forall k | 0 <= k < i :: entries[k].pattern != pattern
      {
        var entry := entries[i];
        if entry.pattern == pattern {
          HitKeeps(entries, history, compile, i);
          Shift(i);
          history := history + [pattern];
          return Some(entry.re);
        }
      }
      re := compile(pattern);
      if re.None? {
        RecencySnoc(history, compile, pattern);
        history := history + [pattern];
        return;
      }
      MissKeeps(entries, history, compile, pattern, re.value);
      if |entries| >= LIMIT {
        entries := entries[..LIMIT - 1];
      }
      entries := [Entry(pattern, re.value)] + entries;
      history := history + [pattern];
    }

    method Shift(i: nat)
      requires i < |entries|
      modifies `entries
      ensures entries == Moved(old(entries), i)
    {
      var entry := entries[i];
      if i > 0 {
        entries := entries[..1] + entries[..i] + entries[i + 1..];
        entries := entries[0 := entry];
      }
    }
  }
}
