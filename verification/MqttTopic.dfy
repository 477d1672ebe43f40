// MQTT topic filters: which are legal, and which topics they match
// (section 4.7 of MQTT 3.1.1).
module MqttTopic {
  import opened Text

  // ---------- Levels ----------

  /** The levels of a topic or filter: what a split at every '/' gives. */
  function Split(s: string): (levels: seq<string>)
    ensures levels != []
  {
    if s == "" then [""]
    else
      var rest := Split(s[1..]);
      if s[0] == '/' then [""] + rest else [[s[0]] + rest[0]] + rest[1..]
  }

  function Join(levels: seq<string>): string
    requires levels != []
  {
    if |levels| == 1 then levels[0] else levels[0] + "/" + Join(levels[1..])
  }

  /** The levels contain no separator and joined by separators give the text back. */
  lemma {:induction false} SplitIs(s: string)
    ensures Join(Split(s)) == s
    ensures forall k | 0 <= k < |Split(s)| :: '/' !in Split(s)[k]
  {
    if s != "" {
      SplitIs(s[1..]);
      var rest := Split(s[1..]);
      assert s == [s[0]] + s[1..];
      if s[0] == '/' {
        assert Split(s)[1..] == rest;
      } else {
        var merged := [[s[0]] + rest[0]] + rest[1..];
        assert merged[1..] == rest[1..];
        assert forall k | 1 <= k < |merged| :: merged[k] == rest[k];
        assert Join(merged) == [s[0]] + Join(rest);
      }
    }
  }

  lemma {:induction false} SplitAtSeparator(a: string, b: string)
    ensures Split(a + "/" + b) == Split(a) + Split(b)
  {
    if a == "" {
      assert a + "/" + b == "/" + b && ("/" + b)[1..] == b;
    } else {
      assert (a + "/" + b)[1..] == a[1..] + "/" + b;
      SplitAtSeparator(a[1..], b);
    }
  }

  lemma {:induction false} SplitOneLevel(s: string)
    requires '/' !in s
    ensures Split(s) == [s]
  {
    if s != "" {
      SplitOneLevel(s[1..]);
      assert [s[0]] + s[1..] == s;
    }
  }

  // ---------- Legal filters ----------

  predicate NoWildcard(level: string) {
    '#' !in level && '+' !in level
  }

  predicate LevelOk(level: string, last: bool) {
    NoWildcard(level) || level == "+" || (level == "#" && last)
  }

  ghost predicate LevelsOk(levels: seq<string>) {
    forall i | 0 <= i < |levels| :: LevelOk(levels[i], i == |levels| - 1)
  }

  /** Character i begins, or follows a separator; it ends the filter, or precedes one. */
  predicate StandsAlone(s: string, i: nat)
    requires i < |s|
  {
    (i == 0 || s[i - 1] == '/') && (i == |s| - 1 || s[i + 1] == '/')
  }

  predicate CharOk(s: string, i: nat)
    requires i < |s|
  {
    && (s[i] == '+' ==> StandsAlone(s, i))
    && (s[i] == '#' ==> StandsAlone(s, i) && i == |s| - 1)
  }

  /** The standard's rules: each wildcard occupies an entire level, and '#' is the last character. */
  ghost predicate Legal(filter: string) {
    filter != "" && forall i: nat | i < |filter| :: CharOk(filter, i)
  }

  ghost predicate CharsOk(s: string, from: nat, to: nat) {
    forall i: nat | from <= i < to && i < |s| :: CharOk(s, i)
  }

  /** A level stands in s from the character after a separator, or the first, up to the next separator or the end. */
  lemma LevelIff(s: string, n: nat)
    requires n <= |s| && '/' !in s[..n] && (n < |s| ==> s[n] == '/')
    ensures CharsOk(s, 0, n) <==> LevelOk(s[..n], n == |s|)
  {
    var level := s[..n];
    assert forall i: nat | i < n :: s[i] == level[i] && s[i] in level;
    if CharsOk(s, 0, n) && !NoWildcard(level) {
      var i: nat :| i < n && (s[i] == '+' || s[i] == '#');
      assert CharOk(s, i);
      assert i == 0 && n == 1 && level == [s[0]];
    }
  }

  lemma CharsAfter(a: string, b: string)
    requires '/' !in a
    ensures CharsOk(a + "/" + b, |a| + 1, |a| + 1 + |b|) <==> CharsOk(b, 0, |b|)
  {
    var s := a + "/" + b;
    assert forall i: nat | i < |b| :: CharOk(b, i) <==> CharOk(s, |a| + 1 + i);
    if CharsOk(s, |a| + 1, |s|) {
      forall i: nat | i < |b| ensures CharOk(b, i) { assert CharOk(s, |a| + 1 + i); }
    }
    if CharsOk(b, 0, |b|) {
      forall i: nat | |a| + 1 <= i < |s| ensures CharOk(s, i) { assert CharOk(b, i - |a| - 1); }
    }
  }

  lemma CharsParts(s: string, n: nat)
    requires n < |s| && s[n] == '/'
    ensures CharsOk(s, 0, |s|) <==> CharsOk(s, 0, n) && CharsOk(s, n + 1, |s|)
  {
    assert CharOk(s, n);
  }

  lemma {:induction false} LevelsIff(s: string)
    ensures CharsOk(s, 0, |s|) <==> LevelsOk(Split(s))
  {
    var n := IndexOf(s, '/');
    LevelIff(s, n);
    if n == |s| {
      assert s[..n] == s;
      SplitOneLevel(s);
      assert LevelsOk([s]) <==> LevelOk([s][0], true);
    } else {
      var a, b := s[..n], s[n + 1..];
      assert s == a + "/" + b;
      SplitAtSeparator(a, b);
      SplitOneLevel(a);
      LevelsIff(b);
      CharsAfter(a, b);
      LevelsCons(a, Split(b));
      CharsParts(s, n);
    }
  }

  lemma LevelsCons(level: string, rest: seq<string>)
    requires rest != []
    ensures LevelsOk([level] + rest) <==> LevelOk(level, false) && LevelsOk(rest)
  {
    var all := [level] + rest;
    assert forall i | 0 <= i < |rest| :: all[i + 1] == rest[i];
    if LevelsOk(all) {
      assert LevelOk(all[0], false);
      forall i | 0 <= i < |rest| ensures LevelOk(rest[i], i == |rest| - 1) {
        assert LevelOk(all[i + 1], i + 1 == |all| - 1);
      }
    }
  }

  /** The level-by-level check accepts exactly the filters the standard allows. */
  method ValidateFilter(filter: string) returns (ok: bool)
    ensures ok <==> Legal(filter)
  {
    LevelsIff(filter);
    if filter == "" {
      return false;
    }
    var levels := Split(filter);
    for i := 0 to |levels|
      invariant forall k | 0 <= k < i :: LevelOk(levels[k], k == |levels| - 1)
    {
      var level := levels[i];
      if level == "#" {
        if i != |levels| - 1 {
          assert !LevelOk(levels[i], i == |levels| - 1);
          return false;
        }
      } else if level == "+" {
      } else if '#' in level || '+' in level {
        assert !LevelOk(levels[i], i == |levels| - 1);
        return false;
      }
    }
    return true;
  }

  // ---------- Matching ----------

  /** '+' stands for one level, '#' for all that are left, every other level for itself. */
  predicate LevelsMatch(filter: seq<string>, topic: seq<string>) {
    if filter == [] then topic == []
    else if filter[0] == "#" then true
    else topic != [] && (filter[0] == "+" || filter[0] == topic[0]) && LevelsMatch(filter[1..], topic[1..])
  }

  /** A wildcard at the root does not match topics beginning with '$'. */
  predicate HiddenFrom(filter: string, topic: string) {
    "$" <= topic && Split(filter)[0] in ["#", "+"]
  }

  /** What the matcher computes, for any filter, legal or not. */
  predicate Matches(filter: string, topic: string) {
    !HiddenFrom(filter, topic) && LevelsMatch(Split(filter), Split(topic))
  }

  /**
   * The standard's meaning of a legal filter: '#' only as the last level, and hidden topics by the first
   * characters.
   */
  predicate StandardLevels(filter: seq<string>, topic: seq<string>) {
    if filter == ["#"] then true
    else if filter == [] then topic == []
    else topic != [] && (filter[0] == "+" || filter[0] == topic[0]) && StandardLevels(filter[1..], topic[1..])
  }

  predicate StandardMatches(filter: string, topic: string) {
    !("$" <= topic && filter != "" && filter[0] in "#+") && StandardLevels(Split(filter), Split(topic))
  }

  /** The equality shortcut is right for every filter: none hides, or fails to match, itself. */
  lemma {:induction false} MatchesItself(s: string)
    ensures Matches(s, s)
  {
    LevelsMatchThemselves(Split(s));
    FirstLevel(s);
  }

  lemma {:induction false} LevelsMatchThemselves(levels: seq<string>)
    ensures LevelsMatch(levels, levels)
  {
    if levels != [] { LevelsMatchThemselves(levels[1..]); }
  }

  lemma FirstLevel(s: string)
    ensures s != "" && s[0] != '/' ==> Split(s)[0] != "" && Split(s)[0][0] == s[0]
    ensures s == "" || s[0] == '/' ==> Split(s)[0] == ""
  {
  }

  /** On every legal filter the matcher means what the standard says. */
  lemma MatchesStandard(filter: string, topic: string)
    requires Legal(filter)
    ensures Matches(filter, topic) <==> StandardMatches(filter, topic)
  {
    RootWildcard(filter);
    StandardLevelsAgree(Split(filter), Split(topic));
  }

  lemma {:induction false} StandardLevelsAgree(filter: seq<string>, topic: seq<string>)
    requires LevelsOk(filter)
    ensures LevelsMatch(filter, topic) <==> StandardLevels(filter, topic)
  {
    if filter != [] {
      assert LevelOk(filter[0], 0 == |filter| - 1);
      assert filter == [filter[0]] + filter[1..];
      if topic != [] && |filter| > 1 {
        LevelsCons(filter[0], filter[1..]);
        StandardLevelsAgree(filter[1..], topic[1..]);
      }
    }
  }

  lemma RootWildcard(filter: string)
    requires Legal(filter)
    ensures filter[0] in "#+" <==> Split(filter)[0] in ["#", "+"]
    ensures LevelsOk(Split(filter))
  {
    LevelsIff(filter);
    FirstLevel(filter);
    assert LevelOk(Split(filter)[0], 0 == |Split(filter)| - 1);
    if filter[0] in "#+" {
      assert Split(filter)[0][0] in "#+";
      assert Split(filter)[0][0] in Split(filter)[0];
    }
  }

  /** The iterative matcher equals the recursive meaning on every filter and topic. */
  method Match(filter: string, topic: string) returns (matches: bool)
    ensures matches <==> Matches(filter, topic)
  {
    if filter == topic {
      MatchesItself(filter);
      return true;
    }
    var filterLevels := Split(filter);
    var topicLevels := Split(topic);
    if "$" <= topic && (filterLevels[0] == "#" || filterLevels[0] == "+") {
      return false;
    }
    matches := MatchLevels(filterLevels, topicLevels);
  }

  method MatchLevels(filter: seq<string>, topic: seq<string>) returns (matches: bool)
    ensures matches <==> LevelsMatch(filter, topic)
  {
    for i := 0 to |filter|
      invariant i <= |topic|
      invariant LevelsMatch(filter, topic) <==> LevelsMatch(filter[i..], topic[i..])
    {
      var level := filter[i];
      assert filter[i..] == [level] + filter[i + 1..];
      if level == "#" {
        return true;
      }
      if i >= |topic| {
        return false;
      }
      if level != "+" && level != topic[i] {
        return false;
      }
      assert filter[i..][1..] == filter[i + 1..] && topic[i..][1..] == topic[i + 1..];
    }
    return |filter| == |topic|;
  }

  // ---------- Level by level ----------

  /** A filter is legal when a level with a '+' is just that, and one with a '#' just that and the last. */
  lemma LegalIff(filter: string)
    ensures Legal(filter) <==>
            && filter != ""
            && forall i | 0 <= i < |Split(filter)| ::
                 && ('+' in Split(filter)[i] ==> Split(filter)[i] == "+")
                 && ('#' in Split(filter)[i] ==> Split(filter)[i] == "#" && i == |Split(filter)| - 1)
  {
    var levels := Split(filter);
    LevelsIff(filter);
    forall i | 0 <= i < |levels|
      ensures LevelOk(levels[i], i == |levels| - 1) <==>
              && ('+' in levels[i] ==> levels[i] == "+")
              && ('#' in levels[i] ==> levels[i] == "#" && i == |levels| - 1)
    {
      assert '+' in "+" && '#' !in "+" && '#' in "#" && '+' !in "#";
    }
  }

  /** filter[..n] is what precedes the first '#': each of its levels is one of the topic's, or stands for it. */
  predicate LevelwiseUpTo(filter: seq<string>, topic: seq<string>, n: nat)
    requires n <= |filter|
  {
    n <= |topic| && forall i | 0 <= i < n :: filter[i] == "+" || filter[i] == topic[i]
  }

  lemma {:induction false} LevelsMatchIff(filter: seq<string>, topic: seq<string>, n: nat)
    requires n <= |filter| && "#" !in filter[..n] && (n < |filter| ==> filter[n] == "#")
    ensures LevelsMatch(filter, topic) <==> LevelwiseUpTo(filter, topic, n) && (n == |filter| ==> |topic| == n)
  {
    if n > 0 && topic != [] {
      var f, t := filter[1..], topic[1..];
      assert filter[..n][0] == filter[0] && f[..n - 1] == filter[..n][1..];
      LevelsMatchIff(f, t, n - 1);
      assert forall i | 0 <= i < n - 1 :: f[i] == filter[i + 1];
      if LevelwiseUpTo(filter, topic, n) {
        assert forall i | 0 <= i < n - 1 :: t[i] == topic[i + 1];
      }
      if LevelwiseUpTo(f, t, n - 1) {
        forall i | 1 <= i < n ensures filter[i] == "+" || filter[i] == topic[i] {
          assert filter[i] == f[i - 1] && topic[i] == t[i - 1];
        }
      }
    } else if n > 0 {
      assert filter[..n][0] == filter[0];
    }
  }

  /** Without a '#' a filter matches the topics of as many levels, each equal to its own or standing under a '+'. */
  lemma MatchesWithoutHash(filter: string, topic: string)
    requires "#" !in Split(filter) && !(topic != "" && topic[0] == '$' && Split(filter)[0] == "+")
    ensures Matches(filter, topic) <==>
            && |Split(topic)| == |Split(filter)|
            && forall i | 0 <= i < |Split(filter)| :: Split(filter)[i] == "+" || Split(filter)[i] == Split(topic)[i]
  {
    var f := Split(filter);
    assert f[..|f|] == f && f[0] in f;
    LevelsMatchIff(f, Split(topic), |f|);
  }

  /** With one it matches the topics that agree so with what precedes it, whatever follows, if anything does. */
  lemma MatchesWithHash(filter: string, topic: string, n: nat)
    requires n < |Split(filter)| && Split(filter)[n] == "#" && "#" !in Split(filter)[..n]
    requires !(topic != "" && topic[0] == '$' && Split(filter)[0] in ["#", "+"])
    ensures Matches(filter, topic) <==>
            && n <= |Split(topic)|
            && forall i | 0 <= i < n :: Split(filter)[i] == "+" || Split(filter)[i] == Split(topic)[i]
  {
    LevelsMatchIff(Split(filter), Split(topic), n);
  }

  /** Topics beginning with '$' stay hidden from a wildcard at the root. */
  lemma RootWildcardHides(filter: string, topic: string)
    requires topic != "" && topic[0] == '$' && Split(filter)[0] in ["#", "+"]
    ensures !Matches(filter, topic)
  {
  }

  // ---------- Multi-level wildcards ----------

  /** The first k characters of a topic form whole levels of it. */
  predicate LevelPrefix(topic: string, k: nat) {
    k == |topic| || (k < |topic| && topic[k] == '/')
  }

  lemma {:induction false} HashMatches(filter: seq<string>, topic: seq<string>)
    requires "#" !in filter
    ensures LevelsMatch(filter + ["#"], topic) <==> exists m: nat :: m <= |topic| && LevelsMatch(filter, topic[..m])
  {
    if filter == [] {
      assert [] + ["#"] == ["#"] && LevelsMatch([], topic[..0]);
    } else {
      var f, rest := filter[0], filter[1..];
      assert (filter + ["#"])[1..] == rest + ["#"] && filter != ["#"] && filter[0] in filter;
      if topic != [] {
        HashMatches(rest, topic[1..]);
        forall m: nat | m < |topic| ensures topic[..m + 1][1..] == topic[1..][..m] {}
        if LevelsMatch(filter + ["#"], topic) {
          var m: nat :| m <= |topic[1..]| && LevelsMatch(rest, topic[1..][..m]);
          assert LevelsMatch(filter, topic[..m + 1]);
        }
        if m: nat :| m <= |topic| && LevelsMatch(filter, topic[..m]) {
          assert m > 0;
          assert topic[..m][1..] == topic[1..][..m - 1];
        }
      }
    }
  }

  /** A prefix of whole levels splits into a prefix of the levels, and every such prefix arises that way. */
  lemma PrefixLevels(topic: string, k: nat) returns (m: nat)
    requires LevelPrefix(topic, k)
    ensures 0 < m <= |Split(topic)| && Split(topic[..k]) == Split(topic)[..m]
  {
    if k == |topic| {
      assert topic[..k] == topic;
      m := |Split(topic)|;
    } else {
      assert topic == topic[..k] + "/" + topic[k + 1..];
      SplitAtSeparator(topic[..k], topic[k + 1..]);
      m := |Split(topic[..k])|;
    }
  }

  lemma {:induction false} PrefixOfLevels(topic: string, m: nat) returns (k: nat)
    requires 0 < m <= |Split(topic)|
    ensures LevelPrefix(topic, k) && Split(topic[..k]) == Split(topic)[..m]
  {
    var n := IndexOf(topic, '/');
    if n == |topic| {
      assert topic[..n] == topic;
      SplitOneLevel(topic);
      k := n;
    } else {
      var a, b := topic[..n], topic[n + 1..];
      assert topic == a + "/" + b;
      SplitAtSeparator(a, b);
      SplitOneLevel(a);
      if m == 1 {
        k := n;
      } else {
        var j := PrefixOfLevels(b, m - 1);
        k := n + 1 + j;
        assert topic[..k] == a + "/" + b[..j];
        SplitAtSeparator(a, b[..j]);
      }
    }
  }

  /** p/# matches exactly the topics of which p matches a prefix of whole levels. */
  lemma HashMatchesSubtree(p: string, topic: string)
    requires Legal(p + "/#")
    ensures Matches(p + "/#", topic) <==> exists k: nat :: LevelPrefix(topic, k) && Matches(p, topic[..k])
  {
    SplitHash(p);
    HashMatches(Split(p), Split(topic));
    if Matches(p + "/#", topic) {
      var m: nat :| m <= |Split(topic)| && LevelsMatch(Split(p), Split(topic)[..m]);
      var k := PrefixOfLevels(topic, m);
      assert !HiddenFrom(p, topic[..k]);
    }
    if k: nat :| LevelPrefix(topic, k) && Matches(p, topic[..k]) {
      var m := PrefixLevels(topic, k);
      assert !HiddenFrom(p + "/#", topic);
    }
  }

  lemma SplitHash(p: string)
    requires Legal(p + "/#")
    ensures Split(p + "/#") == Split(p) + ["#"] && "#" !in Split(p)
  {
    assert p + "/#" == p + "/" + "#";
    SplitAtSeparator(p, "#");
    SplitOneLevel("#");
    LevelsIff(p + "/#");
    var levels := Split(p + "/#");
    forall i | 0 <= i < |Split(p)| ensures Split(p)[i] != "#" {
      assert LevelOk(levels[i], i == |levels| - 1);
    }
  }
}
