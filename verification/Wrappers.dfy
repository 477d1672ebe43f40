// Shared vocabulary: optional values, sequences without duplicates, and
// collections of objects seen through the numbers the objects carry.
module Wrappers {

  datatype Option<+T> = None | Some(value: T)

  ghost predicate NoDup<T>(q: seq<T>) {
    forall i, j | 0 <= i < j < |q| :: q[i] != q[j]
  }

  // ---------- Objects by number ----------

  function MapValues<K, V, W>(m: map<K, V>, f: V -> W): map<K, W> {
    map k | k in m :: f(m[k])
  }

  function Image<V, W>(s: set<V>, f: V -> W): set<W> {
    set v | v in s :: f(v)
  }

  /** The i-th object made carries number i. */
  ghost predicate NumberedBy<V>(made: seq<V>, f: V -> nat) {
    forall n: nat | n < |made| :: f(made[n]) == n
  }

  lemma MapValuesUpdate<K, V, W>(m: map<K, V>, f: V -> W, k: K, v: V)
    ensures MapValues(m[k := v], f) == MapValues(m, f)[k := f(v)]
  {
  }

  lemma MapValuesRemove<K, V, W>(m: map<K, V>, f: V -> W, k: K)
    ensures MapValues(m - {k}, f) == MapValues(m, f) - {k}
  {
    var a, b := MapValues(m - {k}, f), MapValues(m, f) - {k};
    assert forall x :: x in a <==> x in b;
    assert forall x | x in a :: a[x] == b[x];
  }

  lemma ImageOfValues<K, V, W>(m: map<K, V>, f: V -> W)
    ensures Image(m.Values, f) == MapValues(m, f).Values
  {
    var numbers := MapValues(m, f);
    forall w | w in Image(m.Values, f) ensures w in numbers.Values {
      var v :| v in m.Values && f(v) == w;
      var k :| k in m && m[k] == v;
      assert numbers[k] == w;
    }
    forall w | w in numbers.Values ensures w in Image(m.Values, f) {
      var k :| k in numbers && numbers[k] == w;
      assert m[k] in m.Values;
    }
    assert Image(m.Values, f) == numbers.Values;
  }

  lemma ImageMinus<V>(made: seq<V>, s: set<V>, f: V -> nat, v: V)
    requires NumberedBy(made, f) && v in s && forall u | u in s :: u in made
    ensures Image(s - {v}, f) == Image(s, f) - {f(v)}
  {
    forall u | u in s && u != v ensures f(u) != f(v) {
      var i: nat :| i < |made| && made[i] == u;
      var j: nat :| j < |made| && made[j] == v;
    }
  }

  /** An object in the set is found under its number. */
  lemma ByNumber<V>(made: seq<V>, s: set<V>, f: V -> nat, n: nat)
    requires NumberedBy(made, f) && (forall u | u in s :: u in made) && n in Image(s, f)
    ensures n < |made| && made[n] in s
  {
    var v :| v in s && f(v) == n;
    var i: nat :| i < |made| && made[i] == v;
  }
}
