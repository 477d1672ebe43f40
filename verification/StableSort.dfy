// Stable sorting by a key: what the standard libraries' stable sorts give.
module StableSort {

  function Insert<T>(s: seq<T>, x: T, key: T -> int): (r: seq<T>)
    ensures |r| == |s| + 1
  {
    if s == [] || key(s[|s| - 1]) <= key(x) then s + [x]
    else Insert(s[..|s| - 1], x, key) + [s[|s| - 1]]
  }

  /** What a stable sort by key gives: insertion after everything that does not come later. */
  function Sort<T>(q: seq<T>, key: T -> int): (r: seq<T>)
    ensures |r| == |q|
  {
    if q == [] then [] else Insert(Sort(q[..|q| - 1], key), q[|q| - 1], key)
  }

  ghost predicate Sorted<T>(q: seq<T>, key: T -> int) {
    forall i, j | 0 <= i < j < |q| :: key(q[i]) <= key(q[j])
  }

  lemma {:induction false} InsertKeeps<T>(s: seq<T>, x: T, key: T -> int)
    ensures multiset(Insert(s, x, key)) == multiset(s) + multiset{x}
    ensures forall y | y in Insert(s, x, key) :: y in s || y == x
  {
    if s != [] && key(s[|s| - 1]) > key(x) {
      assert s == s[..|s| - 1] + [s[|s| - 1]];
      InsertKeeps(s[..|s| - 1], x, key);
    }
  }

  lemma {:induction false} InsertSorted<T>(s: seq<T>, x: T, key: T -> int)
    requires Sorted(s, key)
    ensures Sorted(Insert(s, x, key), key)
  {
    if s != [] && key(s[|s| - 1]) > key(x) {
      var rest, last := s[..|s| - 1], s[|s| - 1];
      InsertSorted(rest, x, key);
      InsertKeeps(rest, x, key);
      var r := Insert(rest, x, key);
      assert forall i | 0 <= i < |r| :: r[i] in r;
      assert forall y | y in r :: key(y) <= key(last);
    }
  }

  lemma {:induction false} SortSorted<T>(q: seq<T>, key: T -> int)
    ensures Sorted(Sort(q, key), key) && multiset(Sort(q, key)) == multiset(q)
  {
    if q != [] {
      assert q == q[..|q| - 1] + [q[|q| - 1]];
      SortSorted(q[..|q| - 1], key);
      InsertSorted(Sort(q[..|q| - 1], key), q[|q| - 1], key);
      InsertKeeps(Sort(q[..|q| - 1], key), q[|q| - 1], key);
    }
  }

  lemma {:induction false} SortOfSorted<T>(q: seq<T>, key: T -> int)
    requires Sorted(q, key)
    ensures Sort(q, key) == q
  {
    if q != [] {
      assert q == q[..|q| - 1] + [q[|q| - 1]];
      SortOfSorted(q[..|q| - 1], key);
    }
  }

  /** The elements of a given key, in order. */
  function WithKey<T>(q: seq<T>, key: T -> int, k: int): seq<T> {
    if q == [] then []
    else if key(q[|q| - 1]) == k then WithKey(q[..|q| - 1], key, k) + [q[|q| - 1]]
    else WithKey(q[..|q| - 1], key, k)
  }

  lemma {:induction false} InsertStable<T>(s: seq<T>, x: T, key: T -> int, k: int)
    requires Sorted(s, key)
    ensures WithKey(Insert(s, x, key), key, k) == WithKey(s, key, k) + if key(x) == k then [x] else []
  {
    if s != [] && key(s[|s| - 1]) > key(x) {
      var rest, last := s[..|s| - 1], s[|s| - 1];
      InsertStable(rest, x, key, k);
      assert (Insert(rest, x, key) + [last])[..|rest| + 1] == Insert(rest, x, key);
      if key(x) == k {
      } else {
        assert WithKey(rest, key, k) + [] == WithKey(rest, key, k);
      }
    } else {
      assert (s + [x])[..|s|] == s;
    }
  }

  /** Elements of equal key keep their order. */
  lemma {:induction false} SortStable<T>(q: seq<T>, key: T -> int, k: int)
    ensures WithKey(Sort(q, key), key, k) == WithKey(q, key, k)
  {
    if q != [] {
      SortStable(q[..|q| - 1], key, k);
      SortSorted(q[..|q| - 1], key);
      InsertStable(Sort(q[..|q| - 1], key), q[|q| - 1], key, k);
    }
  }
}
