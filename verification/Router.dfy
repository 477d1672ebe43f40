// The route table of the script-driven pages: what a script registers, and
// which request paths it answers.
module Router {
  import opened StableSort
  import opened Text

  /** A request method and a path prefix. */
  datatype RouteSpec = RouteSpec(verb: string, prefix: string)

  /** Prefixes per request method, longest first. */
  type Table = map<string, seq<string>>

  const MOUNT: string := "/s/"

  function Prefixes(specs: seq<RouteSpec>, verb: string): seq<string> {
    if specs == [] then []
    else
      var rest, sp := Prefixes(specs[..|specs| - 1], verb), specs[|specs| - 1];
      if sp.verb == verb then rest + [sp.prefix] else rest
  }

  function Verbs(specs: seq<RouteSpec>): set<string> {
    set sp | sp in specs :: sp.verb
  }

  function ByLength(prefix: string): int {
    -|prefix|
  }

  function TableOf(specs: seq<RouteSpec>): Table {
    map verb | verb in Verbs(specs) :: Sort(Prefixes(specs, verb), ByLength)
  }

  predicate Answers(table: Table, verb: string, path: string) {
    verb in table && exists i | 0 <= i < |table[verb]| :: table[verb][i] <= path
  }

  /** The script registered a prefix of the path under the request's method. */
  ghost predicate Serves(specs: seq<RouteSpec>, verb: string, path: string) {
    exists sp | sp in specs :: sp.verb == verb && sp.prefix <= path
  }

  lemma {:induction false} PrefixesAre(specs: seq<RouteSpec>, verb: string)
    ensures forall x :: x in Prefixes(specs, verb) <==> RouteSpec(verb, x) in specs
  {
    if specs != [] {
      assert specs == specs[..|specs| - 1] + [specs[|specs| - 1]];
      PrefixesAre(specs[..|specs| - 1], verb);
    }
  }

  /** The table answers exactly the requests the specs serve, longest prefix first. */
  lemma TableAnswersIff(specs: seq<RouteSpec>, verb: string, path: string)
    ensures Answers(TableOf(specs), verb, path) <==> Serves(specs, verb, path)
    ensures verb in TableOf(specs) ==>
              var t := TableOf(specs)[verb]; forall i, j | 0 <= i < j < |t| :: |t[i]| >= |t[j]|
  {
    var q := Prefixes(specs, verb);
    PrefixesAre(specs, verb);
    SortSorted(q, ByLength);
    assert forall i, j | 0 <= i < j < |Sort(q, ByLength)| ::
        ByLength(Sort(q, ByLength)[i]) <= ByLength(Sort(q, ByLength)[j]);
    SameMembers(q, Sort(q, ByLength));
    if Serves(specs, verb, path) {
      var sp :| sp in specs && sp.verb == verb && sp.prefix <= path;
      assert sp == RouteSpec(verb, sp.prefix) && sp.verb in Verbs(specs);
      assert sp.prefix in Sort(q, ByLength);
    }
    if Answers(TableOf(specs), verb, path) {
      var i :| 0 <= i < |TableOf(specs)[verb]| && TableOf(specs)[verb][i] <= path;
      assert TableOf(specs)[verb][i] in q;
    }
  }

  lemma SameMembers(p: seq<string>, q: seq<string>)
    requires multiset(p) == multiset(q)
    ensures forall x :: x in p <==> x in q
  {
    forall x ensures x in p <==> x in q {
      assert x in p <==> x in multiset(p);
      assert x in q <==> x in multiset(q);
    }
  }

  class Router {
    var routes: map<string, Table>

    constructor ()
      ensures routes == map[]
    {
      routes := map[];
    }

    /** Replaces the script's routes, or drops it if it has none left. */
    method Register(scriptId: string, specs: seq<RouteSpec>)
      modifies this
      ensures routes == if specs == [] then old(routes) - {scriptId} else old(routes)[scriptId := TableOf(specs)]
    {
      var byVerb := Group(specs);
      byVerb := SortAll(byVerb);
      assert byVerb.Keys == Verbs(specs);
      assert specs != [] ==> specs[0].verb in byVerb.Keys;
      if |byVerb| == 0 {
        assert byVerb.Keys == {};
        routes := routes - {scriptId};
        return;
      }
      assert byVerb == TableOf(specs);
      routes := routes[scriptId := byVerb];
    }

    method Unregister(scriptId: string)
      modifies this
      ensures routes == old(routes) - {scriptId}
    {
      routes := routes - {scriptId};
    }

    method Match(scriptId: string, verb: string, path: string) returns (found: bool)
      ensures found <==> scriptId in routes && Answers(routes[scriptId], verb, path)
    {
      if scriptId !in routes || verb !in routes[scriptId] {
        return false;
      }
      var prefixes := routes[scriptId][verb];
      for i := 0 to |prefixes|
        invariant forall k | 0 <= k < i :: !(prefixes[k] <= path)
      {
        if prefixes[i] <= path {
          return true;
        }
      }
      return false;
    }
  }

  method Group(specs: seq<RouteSpec>) returns (byVerb: Table)
    ensures byVerb == map verb | verb in Verbs(specs) :: Prefixes(specs, verb)
  {
    byVerb := map[];
    for i := 0 to |specs|
      invariant byVerb.Keys == Verbs(specs[..i])
      invariant forall verb | verb in byVerb :: byVerb[verb] == Prefixes(specs[..i], verb)
      invariant forall verb | verb !in byVerb :: Prefixes(specs[..i], verb) == []
    {
      var sp := specs[i];
      assert specs[..i + 1] == specs[..i] + [sp] && specs[..i + 1][..i] == specs[..i];
      var before := if sp.verb in byVerb then byVerb[sp.verb] else [];
      byVerb := byVerb[sp.verb := before + [sp.prefix]];
    }
    assert specs[..|specs|] == specs;
  }

  method SortAll(byVerb: Table) returns (sorted: Table)
    ensures sorted == map verb | verb in byVerb :: Sort(byVerb[verb], ByLength)
  {
    sorted := byVerb;
    var todo := byVerb.Keys;
    while todo != {}
      invariant todo <= byVerb.Keys == sorted.Keys
      invariant forall verb | verb in byVerb ::
                  sorted[verb] == if verb in todo then byVerb[verb] else Sort(byVerb[verb], ByLength)
      decreases |todo|
    {
      var verb :| verb in todo;
      sorted := sorted[verb := Sort(sorted[verb], ByLength)];
      todo := todo - {verb};
    }
  }

  // ---------- Paths ----------

  /** Script, path below its mount, and whether a slash ended the script's name. */
  function SplitMount(path: string): (string, string, bool) {
    if !(MOUNT <= path) then ("", "", false)
    else
      var rest := path[|MOUNT|..];
      var i := IndexOf(rest, '/');
      if i < |rest| then (rest[..i], rest[i..], true) else (rest, "/", false)
  }

  /** Splitting undoes mounting: every path below a script's mount leads to that script and that path. */
  lemma SplitMountInverts(scriptId: string, below: string)
    requires '/' !in scriptId
    ensures SplitMount("/s/" + scriptId + "/" + below) == (scriptId, "/" + below, true)
    ensures SplitMount("/s/" + scriptId) == (scriptId, "/", false)
  {
    IndexOfIs(scriptId, '/', below);
    assert (MOUNT + scriptId + "/" + below)[|MOUNT|..] == scriptId + ['/'] + below;
    var rest := scriptId + ['/'] + below;
    assert rest[..|scriptId|] == scriptId && rest[|scriptId|..] == "/" + below;
    assert (MOUNT + scriptId)[|MOUNT|..] == scriptId;
    assert scriptId + "" == scriptId;
    IndexAfter(scriptId, '/', "");
  }

  /** And mounting undoes splitting, so no two paths below the mount are confused. */
  lemma SplitMountDeterminesPath(path: string)
    requires "/s/" <= path
    ensures var (scriptId, below, hasSlash) := SplitMount(path);
            '/' !in scriptId && below != "" && below[0] == '/'
                && path == "/s/" + scriptId + if hasSlash then below else ""
  {
    var rest := path[|MOUNT|..];
    var i := IndexOf(rest, '/');
    assert path == MOUNT + rest && rest == rest[..i] + rest[i..];
    if i == |rest| { assert rest[..i] == rest && rest + "" == rest; }
  }
}
