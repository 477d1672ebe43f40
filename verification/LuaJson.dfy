// Conversion between Lua values, which live in a heap of possibly cyclic
// tables, and the finite values JSON can carry.
module LuaJson {

  const MAX_TABLE_DEPTH: nat := 100

  datatype Error = TooDeep | Unsupported

  datatype Result<+T> = Ok(value: T) | Err(error: Error)

  /** A Go value as JSON decoding produces it. */
  datatype Any =
    | Null
    | Bool(b: bool)
    | Number(n: real)
    | String(s: string)
    | Array(items: seq<Any>)
    | Object(fields: map<string, Any>)

  datatype LValue = LNil | LBool(b: bool) | LNumber(n: real) | LString(s: string) | LTable(ref: nat) | LOther

  datatype Entry = Entry(key: LValue, value: LValue)

  /** entries is the order ForEach visits them in; maxN is what MaxN reports. */
  datatype Table = Table(entries: seq<Entry>, maxN: nat) {
    /** Keys are never repeated, and neither keys nor stored values are nil. */
    ghost predicate Valid() {
      && (forall i, j | 0 <= i < j < |entries| :: entries[i].key != entries[j].key)
      && (forall e | e in entries :: e.key != LNil && e.value != LNil)
    }

    function Keys(): set<LValue> {
      set e | e in entries :: e.key
    }

    /** RawGetInt. */
    function At(i: nat): (v: LValue)
      ensures v != LNil ==> Entry(IntKey(i), v) in entries
    {
      RawGetIn(entries, IntKey(i))
    }
  }

  function RawGetIn(entries: seq<Entry>, key: LValue): (v: LValue)
    ensures v != LNil ==> Entry(key, v) in entries
  {
    if entries == [] then LNil
    else if entries[|entries| - 1].key == key then entries[|entries| - 1].value
    else RawGetIn(entries[..|entries| - 1], key)
  }

  /** numberText is how the runtime spells a number used as a key. */
  datatype Heap = Heap(tables: map<nat, Table>, numberText: real -> string) {
    ghost predicate Valid() {
      forall r | r in tables :: tables[r].Valid() && forall e | e in tables[r].entries :: Holds(e.value)
    }

    predicate Holds(v: LValue) {
      v.LTable? ==> v.ref in tables
    }

    function KeyText(k: LValue): string {
      match k
      case LString(s) => s
      case LNumber(n) => numberText(n)
      case _ => ""
    }
  }

  // ---------- Lua to Go ----------

  function IntKey(i: nat): LValue {
    LNumber(i as real)
  }

  predicate IsIndex(k: LValue, maxN: nat) {
    k.LNumber? && k.n == k.n.Floor as real && 1 <= k.n.Floor <= maxN
  }

  /** The branch test: as many entries as maxN, every key an index up to it. */
  predicate IsArray(t: Table) {
    t.maxN > 0 && |t.entries| == t.maxN && forall e | e in t.entries :: IsIndex(e.key, t.maxN)
  }

  function ToAny(h: Heap, v: LValue, depth: nat): Result<Any>
    requires h.Valid() && h.Holds(v) && depth <= MAX_TABLE_DEPTH
    decreases MAX_TABLE_DEPTH - depth, 2, 0
  {
    match v
    case LNil => Ok(Null)
    case LBool(b) => Ok(Bool(b))
    case LNumber(n) => Ok(Number(n))
    case LString(s) => Ok(String(s))
    case LTable(ref) => if depth >= MAX_TABLE_DEPTH then Err(TooDeep) else TableToAny(h, h.tables[ref], depth + 1)
    case LOther => Err(Unsupported)
  }

  function TableToAny(h: Heap, t: Table, depth: nat): Result<Any>
    requires h.Valid() && depth <= MAX_TABLE_DEPTH && t.Valid() && forall e | e in t.entries :: h.Holds(e.value)
    decreases MAX_TABLE_DEPTH - depth, 4, 0
  {
    if IsArray(t) then
      var items := Items(h, t, t.maxN, depth);
      if items.Ok? then Ok(Array(items.value)) else Err(items.error)
    else
      var fields := Fields(h, t.entries, depth);
      if fields.Ok? then Ok(Object(fields.value)) else Err(fields.error)
  }

  function Items(h: Heap, t: Table, n: nat, depth: nat): (r: Result<seq<Any>>)
    requires h.Valid() && depth <= MAX_TABLE_DEPTH && forall e | e in t.entries :: h.Holds(e.value)
    ensures r.Ok? ==> |r.value| == n
    decreases MAX_TABLE_DEPTH - depth, 3, n
  {
    if n == 0 then Ok([])
    else
      var before := Items(h, t, n - 1, depth);
      if before.Err? then before
      else
        var v := ToAny(h, t.At(n), depth);
        if v.Err? then Err(v.error) else Ok(before.value + [v.value])
  }

  function Fields(h: Heap, entries: seq<Entry>, depth: nat): Result<map<string, Any>>
    requires h.Valid() && depth <= MAX_TABLE_DEPTH && forall e | e in entries :: h.Holds(e.value)
    decreases MAX_TABLE_DEPTH - depth, 3, |entries|
  {
    if entries == [] then Ok(map[])
    else
      var e := entries[|entries| - 1];
      var before := Fields(h, entries[..|entries| - 1], depth);
      if before.Err? then before
      else
        var v := ToAny(h, e.value, depth);
        if v.Err? then Err(v.error) else Ok(before.value[h.KeyText(e.key) := v.value])
  }

  // ---------- Go to Lua ----------

  /** The largest index anyToLua leaves filled: nil elements are holes. */
  function LastFilled(items: seq<Any>): nat {
    if items == [] then 0
    else if items[|items| - 1] != Null then |items|
    else LastFilled(items[..|items| - 1])
  }

  /** lv stands for v, using only tables from lo on, each container's below it. */
  ghost predicate Represents(h: Heap, lo: nat, lv: LValue, v: Any)
    decreases v, 1
  {
    match v
    case Null => lv == LNil
    case Bool(b) => lv == LBool(b)
    case Number(n) => lv == LNumber(n)
    case String(s) => lv == LString(s)
    case Array(items) =>
      && lv.LTable? && lo <= lv.ref && lv.ref in h.tables
      && h.tables[lv.ref].maxN == LastFilled(items)
      && ItemsFilled(h, lv.ref + 1, h.tables[lv.ref].entries, items)
    case Object(m) =>
      && lv.LTable? && lo <= lv.ref && lv.ref in h.tables
      && h.tables[lv.ref].maxN == 0
      && (forall e | e in h.tables[lv.ref].entries ::
            e.key.LString? && e.key.s in m && m[e.key.s] != Null && Represents(h, lv.ref + 1, e.value, m[e.key.s]))
      && (forall k | k in m && m[k] != Null :: HasKey(h.tables[lv.ref].entries, k))
  }

  predicate HasKey(entries: seq<Entry>, k: string) {
    exists e | e in entries :: e.key == LString(k)
  }

  ghost predicate ItemsFilled(h: Heap, lo: nat, entries: seq<Entry>, items: seq<Any>)
    decreases items, 0
  {
    if items == [] then entries == []
    else
      var n := |items| - 1;
      if items[n] == Null then ItemsFilled(h, lo, entries, items[..n])
      else
        && entries != []
        && entries[|entries| - 1].key == IntKey(n + 1)
        && Represents(h, lo, entries[|entries| - 1].value, items[n])
        && ItemsFilled(h, lo, entries[..|entries| - 1], items[..n])
  }

  function Appended(t: Table, key: LValue, v: LValue, maxN: nat): Table {
    if v == LNil then t else Table(t.entries + [Entry(key, v)], maxN)
  }

  /** Every table of h from lo on is in g, unchanged. */
  ghost predicate Extends(h: Heap, g: Heap, lo: nat) {
    forall r | r in h.tables && lo <= r :: r in g.tables && g.tables[r] == h.tables[r]
  }

  /** Only tables numbered from on were added. */
  ghost predicate Grew(g: Heap, h: Heap, from: nat) {
    Extends(g, h, 0) && h.numberText == g.numberText && forall r | r in h.tables && r !in g.tables :: from <= r
  }

  /** Growing further, then changing a table that was not there at first. */
  lemma GrewOn(g: Heap, h: Heap, k: Heap, from: nat, later: nat, t: nat, table: Table)
    requires Grew(g, h, from) && Grew(h, k, later) && from <= later && from <= t && t !in g.tables
    ensures Grew(g, k.(tables := k.tables[t := table]), from)
  {
  }

  lemma {:induction false} RepresentsFrame(h: Heap, g: Heap, lo: nat, lv: LValue, v: Any)
    requires Represents(h, lo, lv, v) && Extends(h, g, lo)
    ensures Represents(g, lo, lv, v)
    decreases v, 1
  {
    match v {
      case Array(items) =>
        ItemsFilledFrame(h, g, lv.ref + 1, h.tables[lv.ref].entries, items);
      case Object(m) =>
        forall e | e in h.tables[lv.ref].entries ensures Represents(g, lv.ref + 1, e.value, m[e.key.s]) {
          RepresentsFrame(h, g, lv.ref + 1, e.value, m[e.key.s]);
        }
      case _ =>
    }
  }

  lemma {:induction false} ItemsFilledFrame(h: Heap, g: Heap, lo: nat, entries: seq<Entry>, items: seq<Any>)
    requires ItemsFilled(h, lo, entries, items) && Extends(h, g, lo)
    ensures ItemsFilled(g, lo, entries, items)
    decreases items, 0
  {
    if items != [] {
      var n := |items| - 1;
      if items[n] == Null {
        ItemsFilledFrame(h, g, lo, entries, items[..n]);
      } else {
        RepresentsFrame(h, g, lo, entries[|entries| - 1].value, items[n]);
        ItemsFilledFrame(h, g, lo, entries[..|entries| - 1], items[..n]);
      }
    }
  }

  lemma {:induction false} FilledKeys(h: Heap, lo: nat, entries: seq<Entry>, items: seq<Any>)
    requires ItemsFilled(h, lo, entries, items)
    ensures forall e | e in entries :: IsIndex(e.key, |items|)
  {
    if items != [] {
      var n := |items| - 1;
      if items[n] == Null {
        FilledKeys(h, lo, entries, items[..n]);
      } else {
        FilledKeys(h, lo, entries[..|entries| - 1], items[..n]);
        assert entries == entries[..|entries| - 1] + [entries[|entries| - 1]];
      }
    }
  }

  /** One more element: a nil leaves the table as it is. */
  lemma FillNext(h: Heap, g: Heap, t: nat, items: seq<Any>, i: nat, x: LValue)
    requires t in h.tables && i < |items| && (x == LNil <==> items[i] == Null)
    requires ItemsFilled(h, t + 1, h.tables[t].entries, items[..i]) && h.tables[t].maxN == LastFilled(items[..i])
    requires Represents(h, t + 1, x, items[i])
    requires g == h.(tables := h.tables[t := Appended(h.tables[t], IntKey(i + 1), x, i + 1)])
    ensures ItemsFilled(g, t + 1, g.tables[t].entries, items[..i + 1]) && g.tables[t].maxN == LastFilled(items[..i + 1])
  {
    assert items[..i + 1][..i] == items[..i];
    assert Extends(h, g, t + 1);
    ItemsFilledFrame(h, g, t + 1, h.tables[t].entries, items[..i]);
    RepresentsFrame(h, g, t + 1, x, items[i]);
  }

  /** All of m's keys but those in rest are filled, unless null. */
  ghost predicate FieldsFilled(h: Heap, lo: nat, entries: seq<Entry>, m: map<string, Any>, rest: set<string>) {
    && (forall e | e in entries ::
          e.key.LString? && e.key.s in m && e.key.s !in rest && m[e.key.s] != Null
              && Represents(h, lo, e.value, m[e.key.s]))
    && (forall k | k in m && k !in rest && m[k] != Null :: HasKey(entries, k))
  }

  lemma FieldsFilledFrame(h: Heap, g: Heap, lo: nat, entries: seq<Entry>, m: map<string, Any>, rest: set<string>)
    requires FieldsFilled(h, lo, entries, m, rest) && Extends(h, g, lo)
    ensures FieldsFilled(g, lo, entries, m, rest)
  {
    forall e | e in entries ensures Represents(g, lo, e.value, m[e.key.s]) {
      RepresentsFrame(h, g, lo, e.value, m[e.key.s]);
    }
  }

  lemma FieldsDone(h: Heap, t: nat, m: map<string, Any>)
    requires t in h.tables && h.tables[t].maxN == 0 && FieldsFilled(h, t + 1, h.tables[t].entries, m, {})
    ensures Represents(h, t, LTable(t), Object(m))
  {
  }

  lemma FieldNext(h: Heap, g: Heap, t: nat, m: map<string, Any>, rest: set<string>, k: string, x: LValue)
    requires t in h.tables && k in rest && k in m && (x == LNil <==> m[k] == Null)
    requires FieldsFilled(h, t + 1, h.tables[t].entries, m, rest)
    requires Represents(h, t + 1, x, m[k])
    requires g == h.(tables := h.tables[t := Appended(h.tables[t], LString(k), x, h.tables[t].maxN)])
    ensures FieldsFilled(g, t + 1, g.tables[t].entries, m, rest - {k})
  {
    assert Extends(h, g, t + 1);
    FieldsFilledFrame(h, g, t + 1, h.tables[t].entries, m, rest);
    RepresentsFrame(h, g, t + 1, x, m[k]);
    var before, after := h.tables[t].entries, g.tables[t].entries;
    assert forall e | e in after :: e in before || (x != LNil && e == Entry(LString(k), x));
    assert x != LNil ==> after[|before|] == Entry(LString(k), x);
    forall j | j in m && j !in rest - {k} && m[j] != Null ensures HasKey(after, j) {
      if j != k {
        var e :| e in before && e.key == LString(j);
        assert e in after;
      }
    }
  }

  // ---------- The runtime's state ----------

  class LuaState {
    var heap: Heap
    var nextRef: nat

    ghost predicate Valid()
      reads this
    {
      heap.Valid() && forall r | r in heap.tables :: r < nextRef
    }

    method NewTable() returns (ref: nat)
      requires Valid()
      modifies this
      ensures Valid() && ref == old(nextRef) && nextRef == ref + 1
      ensures heap == old(heap).(tables := old(heap).tables[ref := Table([], 0)])
    {
      ref := nextRef;
      heap := heap.(tables := heap.tables[ref := Table([], 0)]);
      nextRef := nextRef + 1;
    }

    /** Sets the index after the last one set; a nil leaves a hole. */
    method RawSetInt(ref: nat, i: nat, v: LValue)
      requires Valid() && ref in heap.tables && heap.Holds(v)
      requires forall e | e in heap.tables[ref].entries :: e.key != IntKey(i)
      modifies `heap
      ensures Valid()
      ensures heap == old(heap).(tables := old(heap).tables[ref := Appended(old(heap).tables[ref], IntKey(i), v, i)])
    {
      heap := heap.(tables := heap.tables[ref := Appended(heap.tables[ref], IntKey(i), v, i)]);
    }

    /** Sets a key not set before; a nil leaves it unset. */
    method RawSetString(ref: nat, k: string, v: LValue)
      requires Valid() && ref in heap.tables && heap.Holds(v)
      requires forall e | e in heap.tables[ref].entries :: e.key != LString(k)
      modifies `heap
      ensures Valid()
      ensures var t := old(heap).tables[ref];
              heap == old(heap).(tables := old(heap).tables[ref := Appended(t, LString(k), v, t.maxN)])
    {
      heap := heap.(tables := heap.tables[ref := Appended(heap.tables[ref], LString(k), v, heap.tables[ref].maxN)]);
    }

    method AnyToLua(v: Any) returns (r: LValue)
      requires Valid()
      modifies this
      ensures Valid() && nextRef >= old(nextRef) && heap.Holds(r) && (r == LNil <==> v == Null)
      ensures Grew(old(heap), heap, old(nextRef))
      ensures Represents(heap, old(nextRef), r, v)
      decreases v, 1
    {
      match v {
        case Null => return LNil;
        case Bool(b) => return LBool(b);
        case Number(n) => return LNumber(n);
        case String(s) => return LString(s);
        case Array(items) => r := ItemsToLua(v);
        case Object(m) => r := FieldsToLua(v);
      }
    }

    method ItemsToLua(v: Any) returns (r: LValue)
      requires Valid() && v.Array?
      modifies this
      ensures Valid() && nextRef >= old(nextRef) && heap.Holds(r) && r != LNil
      ensures Grew(old(heap), heap, old(nextRef))
      ensures Represents(heap, old(nextRef), r, v)
      decreases v, 0
    {
      var items := v.items;
      var t := NewTable();
      for i := 0 to |items|
        invariant Valid() && nextRef > t == old(nextRef) && t in heap.tables
        invariant Grew(old(heap), heap, t)
        invariant ItemsFilled(heap, t + 1, heap.tables[t].entries, items[..i])
        invariant heap.tables[t].maxN == LastFilled(items[..i])
      {
        ghost var h0, n0 := heap, nextRef;
        var x := AnyToLua(items[i]);
        ItemsFilledFrame(h0, heap, t + 1, heap.tables[t].entries, items[..i]);
        FilledKeys(heap, t + 1, heap.tables[t].entries, items[..i]);
        ghost var h1 := heap;
        RawSetInt(t, i + 1, x);
        FillNext(h1, heap, t, items, i, x);
        GrewOn(old(heap), h0, h1, t, n0, t, heap.tables[t]);
      }
      assert items[..|items|] == items;
      r := LTable(t);
    }

    method FieldsToLua(v: Any) returns (r: LValue)
      requires Valid() && v.Object?
      modifies this
      ensures Valid() && nextRef >= old(nextRef) && heap.Holds(r) && r != LNil
      ensures Grew(old(heap), heap, old(nextRef))
      ensures Represents(heap, old(nextRef), r, v)
      decreases v, 0
    {
      var m := v.fields;
      var t := NewTable();
      var rest := m.Keys;
      while rest != {}
        invariant rest <= m.Keys
        invariant Valid() && nextRef > t == old(nextRef) && t in heap.tables && heap.tables[t].maxN == 0
        invariant Grew(old(heap), heap, t)
        invariant FieldsFilled(heap, t + 1, heap.tables[t].entries, m, rest)
        decreases rest
      {
        var k :| k in rest;
        ghost var h0, n0 := heap, nextRef;
        var x := AnyToLua(m[k]);
        FieldsFilledFrame(h0, heap, t + 1, h0.tables[t].entries, m, rest);
        ghost var h1 := heap;
        RawSetString(t, k, x);
        FieldNext(h1, heap, t, m, rest, k, x);
        GrewOn(old(heap), h0, h1, t, n0, t, heap.tables[t]);
        rest := rest - {k};
      }
      FieldsDone(heap, t, m);
      r := LTable(t);
    }

    method ToAnyDepth(v: LValue, depth: nat) returns (r: Result<Any>)
      requires heap.Valid() && heap.Holds(v) && depth <= MAX_TABLE_DEPTH
      ensures r == ToAny(heap, v, depth)
      decreases MAX_TABLE_DEPTH - depth, 0
    {
      match v {
        case LNil => return Ok(Null);
        case LBool(b) => return Ok(Bool(b));
        case LNumber(n) => return Ok(Number(n));
        case LString(s) => return Ok(String(s));
        case LTable(ref) =>
          if depth >= MAX_TABLE_DEPTH {
            return Err(TooDeep);
          }
          r := TableToAnyDepth(heap.tables[ref], depth + 1);
        case LOther => return Err(Unsupported);
      }
    }

    method TableToAnyDepth(t: Table, depth: nat) returns (r: Result<Any>)
      requires heap.Valid() && depth <= MAX_TABLE_DEPTH && t.Valid() && forall e | e in t.entries :: heap.Holds(e.value)
      ensures r == TableToAny(heap, t, depth)
      decreases MAX_TABLE_DEPTH - depth, 2
    {
      var isArray := LooksLikeArray(t);
      if isArray {
        var items := ItemsToAny(t, depth);
        return if items.Ok? then Ok(Array(items.value)) else Err(items.error);
      }
      var fields := FieldsToAny(t.entries, depth);
      return if fields.Ok? then Ok(Object(fields.value)) else Err(fields.error);
    }

    method LooksLikeArray(t: Table) returns (r: bool)
      ensures r == IsArray(t)
    {
      if t.maxN == 0 {
        return false;
      }
      var isArray := true;
      var count := 0;
      for i := 0 to |t.entries|
        invariant count == i
        invariant isArray <==> forall k | 0 <= k < i :: IsIndex(t.entries[k].key, t.maxN)
      {
        count := count + 1;
        if !IsIndex(t.entries[i].key, t.maxN) {
          isArray := false;
        }
      }
      return isArray && count == t.maxN;
    }

    method ItemsToAny(t: Table, depth: nat) returns (r: Result<seq<Any>>)
      requires heap.Valid() && depth <= MAX_TABLE_DEPTH && forall e | e in t.entries :: heap.Holds(e.value)
      ensures r == Items(heap, t, t.maxN, depth)
      decreases MAX_TABLE_DEPTH - depth, 1
    {
      var arr: seq<Any> := [];
      for i := 1 to t.maxN + 1
        invariant Items(heap, t, i - 1, depth) == Ok(arr)
      {
        var v := ToAnyDepth(t.At(i), depth);
        if v.Err? {
          ItemsFail(heap, t, i, t.maxN, depth);
          return Err(v.error);
        }
        arr := arr + [v.value];
      }
      return Ok(arr);
    }

    method FieldsToAny(entries: seq<Entry>, depth: nat) returns (r: Result<map<string, Any>>)
      requires heap.Valid() && depth <= MAX_TABLE_DEPTH && forall e | e in entries :: heap.Holds(e.value)
      ensures r == Fields(heap, entries, depth)
      decreases MAX_TABLE_DEPTH - depth, 1
    {
      var obj: map<string, Any> := map[];
      for i := 0 to |entries|
        invariant Fields(heap, entries[..i], depth) == Ok(obj)
      {
        var e := entries[i];
        assert entries[..i + 1][..i] == entries[..i];
        var v := ToAnyDepth(e.value, depth);
        if v.Err? {
          FieldsFail(heap, entries, i + 1, depth);
          return Err(v.error);
        }
        obj := obj[heap.KeyText(e.key) := v.value];
      }
      assert entries[..|entries|] == entries;
      return Ok(obj);
    }
  }

  lemma {:induction false} ItemsFail(h: Heap, t: Table, n: nat, m: nat, depth: nat)
    requires h.Valid() && depth <= MAX_TABLE_DEPTH && forall e | e in t.entries :: h.Holds(e.value)
    requires n <= m && Items(h, t, n, depth).Err?
    ensures Items(h, t, m, depth) == Items(h, t, n, depth)
  {
    if n < m { ItemsFail(h, t, n, m - 1, depth); }
  }

  lemma {:induction false} FieldsFail(h: Heap, entries: seq<Entry>, n: nat, depth: nat)
    requires h.Valid() && depth <= MAX_TABLE_DEPTH && forall e | e in entries :: h.Holds(e.value)
    requires n <= |entries| && Fields(h, entries[..n], depth).Err?
    ensures Fields(h, entries, depth) == Fields(h, entries[..n], depth)
    decreases |entries|
  {
    if n < |entries| {
      assert entries[..|entries| - 1][..n] == entries[..n];
      FieldsFail(h, entries[..|entries| - 1], n, depth);
    } else {
      assert entries[..n] == entries;
    }
  }

  // ---------- The array branch: a pigeonhole ----------

  function Indexes(n: nat): (s: set<LValue>)
    ensures |s| == n
    ensures forall k :: k in s <==> k.LNumber? && k.n == k.n.Floor as real && 1 <= k.n.Floor <= n
  {
    if n == 0 then {} else Indexes(n - 1) + {IntKey(n)}
  }

  lemma {:induction false} KeysCount(entries: seq<Entry>)
    requires forall i, j | 0 <= i < j < |entries| :: entries[i].key != entries[j].key
    ensures |set e | e in entries :: e.key| == |entries|
  {
    if entries != [] {
      var rest, last := entries[..|entries| - 1], entries[|entries| - 1];
      KeysCount(rest);
      assert entries == rest + [last];
      assert (set e | e in entries :: e.key) == (set e | e in rest :: e.key) + {last.key};
    }
  }

  lemma SameSize<T>(a: set<T>, b: set<T>)
    requires a <= b && |a| == |b|
    ensures a == b
  {
    assert |b - a| == |b| - |a|;
    assert b == a + (b - a);
  }

  /** A table is taken for an array exactly when its keys are 1..n. */
  lemma ArrayIffKeysAreIndexes(t: Table)
    requires t.Valid()
    ensures IsArray(t) <==> t.maxN > 0 && t.Keys() == Indexes(t.maxN)
  {
    KeysCount(t.entries);
    if IsArray(t) {
      SameSize(t.Keys(), Indexes(t.maxN));
    } else if t.maxN > 0 && t.Keys() == Indexes(t.maxN) {
      assert forall e | e in t.entries :: e.key in t.Keys();
    }
  }

  lemma {:induction false} RawGetFinds(entries: seq<Entry>, e: Entry)
    requires forall i, j | 0 <= i < j < |entries| :: entries[i].key != entries[j].key
    requires e in entries
    ensures RawGetIn(entries, e.key) == e.value
  {
    var n := |entries| - 1;
    if entries[n] != e { RawGetFinds(entries[..n], e); }
  }

  // ---------- What a script sees of a decoded value ----------

  lemma {:induction false} FilledAt(h: Heap, lo: nat, entries: seq<Entry>, items: seq<Any>, i: nat)
    requires ItemsFilled(h, lo, entries, items) && i < |items|
    ensures var v := RawGetIn(entries, IntKey(i + 1));
            if items[i] == Null then v == LNil else Represents(h, lo, v, items[i])
  {
    var n := |items| - 1;
    if items[n] == Null {
      if i == n {
        FilledKeys(h, lo, entries, items[..n]);
      } else {
        FilledAt(h, lo, entries, items[..n], i);
      }
    } else if i < n {
      FilledAt(h, lo, entries[..|entries| - 1], items[..n], i);
    }
  }

  /** Element i is found at index i + 1, a null leaving its index unset; an array's length ends at its last element. */
  lemma IndexingArray(h: Heap, lo: nat, ref: nat, items: seq<Any>, i: nat)
    requires Represents(h, lo, LTable(ref), Array(items)) && i < |items|
    ensures var v := h.tables[ref].At(i + 1);
            if items[i] == Null then v == LNil else Represents(h, ref + 1, v, items[i])
    ensures items[|items| - 1] != Null ==> h.tables[ref].maxN == |items|
  {
    FilledAt(h, ref + 1, h.tables[ref].entries, items, i);
  }

  /** Each field is found under its name, one that is null or absent not at all. */
  lemma IndexingObject(h: Heap, lo: nat, ref: nat, m: map<string, Any>, k: string)
    requires h.Valid() && Represents(h, lo, LTable(ref), Object(m))
    ensures var v := RawGetIn(h.tables[ref].entries, LString(k));
            if k !in m || m[k] == Null then v == LNil else Represents(h, ref + 1, v, m[k])
  {
    var entries := h.tables[ref].entries;
    if k in m && m[k] != Null {
      assert HasKey(entries, k);
      var e :| e in entries && e.key == LString(k);
      RawGetFinds(entries, e);
    } else {
      var v := RawGetIn(entries, LString(k));
      assert v != LNil ==> Entry(LString(k), v) in entries;
    }
  }

  // ---------- Which values convert ----------

  /** No function or userdata within reach, and no chain of more than n tables. */
  predicate Convertible(h: Heap, v: LValue, n: nat)
    requires h.Valid() && h.Holds(v)
    decreases n
  {
    match v
    case LOther => false
    case LTable(ref) => n > 0 && forall e | e in h.tables[ref].entries :: Convertible(h, e.value, n - 1)
    case _ => true
  }

  /** An array's values are exactly what its indexes hold. */
  lemma EntryAtIndex(t: Table, e: Entry) returns (i: nat)
    requires t.Valid() && IsArray(t) && e in t.entries
    ensures 1 <= i <= t.maxN && e.key == IntKey(i) && t.At(i) == e.value
  {
    i := e.key.n.Floor;
    RawGetFinds(t.entries, e);
  }

  lemma IndexHasEntry(t: Table, i: nat)
    requires t.Valid() && IsArray(t) && 1 <= i <= t.maxN
    ensures Entry(IntKey(i), t.At(i)) in t.entries
  {
    ArrayIffKeysAreIndexes(t);
    assert IntKey(i) in t.Keys();
    var e :| e in t.entries && e.key == IntKey(i);
    RawGetFinds(t.entries, e);
  }

  /** Conversion succeeds exactly on those, whichever branch its tables take. */
  lemma {:induction false} ConvertsIff(h: Heap, v: LValue, depth: nat)
    requires h.Valid() && h.Holds(v) && depth <= MAX_TABLE_DEPTH
    ensures ToAny(h, v, depth).Ok? <==> Convertible(h, v, MAX_TABLE_DEPTH - depth)
    decreases MAX_TABLE_DEPTH - depth
  {
    if v.LTable? && depth < MAX_TABLE_DEPTH {
      var t := h.tables[v.ref];
      forall e | e in t.entries
        ensures ToAny(h, e.value, depth + 1).Ok? <==> Convertible(h, e.value, MAX_TABLE_DEPTH - depth - 1)
      {
        ConvertsIff(h, e.value, depth + 1);
      }
      TableConverts(h, t, depth + 1);
    }
  }

  lemma TableConverts(h: Heap, t: Table, depth: nat)
    requires h.Valid() && depth <= MAX_TABLE_DEPTH && t.Valid() && forall e | e in t.entries :: h.Holds(e.value)
    ensures TableToAny(h, t, depth).Ok? <==> forall e | e in t.entries :: ToAny(h, e.value, depth).Ok?
  {
    if IsArray(t) {
      ItemsConvert(h, t, t.maxN, depth);
      if TableToAny(h, t, depth).Ok? {
        forall e | e in t.entries ensures ToAny(h, e.value, depth).Ok? {
          var i := EntryAtIndex(t, e);
        }
      } else {
        var i: nat :| 1 <= i <= t.maxN && !ToAny(h, t.At(i), depth).Ok?;
        IndexHasEntry(t, i);
      }
    } else {
      FieldsConvert(h, t.entries, depth);
    }
  }

  lemma {:induction false} ItemsConvert(h: Heap, t: Table, n: nat, depth: nat)
    requires h.Valid() && depth <= MAX_TABLE_DEPTH && forall e | e in t.entries :: h.Holds(e.value)
    ensures Items(h, t, n, depth).Ok? <==> forall i: nat | 1 <= i <= n :: ToAny(h, t.At(i), depth).Ok?
    ensures Items(h, t, n, depth).Ok? ==>
              forall i: nat | 1 <= i <= n :: ToAny(h, t.At(i), depth) == Ok(Items(h, t, n, depth).value[i - 1])
  {
    if n > 0 { ItemsConvert(h, t, n - 1, depth); }
  }

  lemma {:induction false} FieldsConvert(h: Heap, entries: seq<Entry>, depth: nat)
    requires h.Valid() && depth <= MAX_TABLE_DEPTH && forall e | e in entries :: h.Holds(e.value)
    ensures Fields(h, entries, depth).Ok? <==> forall e | e in entries :: ToAny(h, e.value, depth).Ok?
  {
    if entries != [] {
      var rest, last := entries[..|entries| - 1], entries[|entries| - 1];
      assert entries == rest + [last];
      FieldsConvert(h, rest, depth);
    }
  }

  // ---------- What conversion yields ----------

  /** Plain values are themselves; what has no JSON form, and a table below a hundred others, is an error. */
  lemma PlainValues(h: Heap, v: LValue, depth: nat)
    requires h.Valid() && h.Holds(v) && depth <= MAX_TABLE_DEPTH
    ensures v == LNil ==> ToAny(h, v, depth) == Ok(Null)
    ensures v.LBool? ==> ToAny(h, v, depth) == Ok(Bool(v.b))
    ensures v.LNumber? ==> ToAny(h, v, depth) == Ok(Number(v.n))
    ensures v.LString? ==> ToAny(h, v, depth) == Ok(String(v.s))
    ensures v == LOther ==> ToAny(h, v, depth) == Err(Unsupported)
    ensures v.LTable? && depth == 100 ==> ToAny(h, v, depth) == Err(TooDeep)
  {
  }

  /** The first element that cannot be converted decides the error, */
  lemma FirstBadItemDecides(h: Heap, t: Table, n: nat, i: nat, depth: nat)
    requires h.Valid() && depth <= MAX_TABLE_DEPTH && forall e | e in t.entries :: h.Holds(e.value)
    requires 1 <= i <= n && ToAny(h, t.At(i), depth).Err?
    requires forall k: nat | 1 <= k < i :: ToAny(h, t.At(k), depth).Ok?
    ensures Items(h, t, n, depth) == Err(ToAny(h, t.At(i), depth).error)
  {
    ItemsConvert(h, t, i - 1, depth);
    ItemsFail(h, t, i, n, depth);
  }

  /** and so does the first field. */
  lemma FirstBadFieldDecides(h: Heap, entries: seq<Entry>, i: nat, depth: nat)
    requires h.Valid() && depth <= MAX_TABLE_DEPTH && forall e | e in entries :: h.Holds(e.value)
    requires i < |entries| && ToAny(h, entries[i].value, depth).Err?
    requires forall k | 0 <= k < i :: ToAny(h, entries[k].value, depth).Ok?
    ensures Fields(h, entries, depth) == Err(ToAny(h, entries[i].value, depth).error)
  {
    var before := entries[..i];
    forall e | e in before ensures ToAny(h, e.value, depth).Ok? {
      var k :| 0 <= k < i && before[k] == e;
      assert entries[k] == e;
    }
    FieldsConvert(h, before, depth);
    assert entries[..i + 1][..i] == before;
    FieldsFail(h, entries, i + 1, depth);
  }

  /** How a key is spelled in an object: strings as they are, numbers as the runtime prints them, others as nothing. */
  predicate Spells(h: Heap, key: LValue, text: string) {
    || (key.LString? && text == key.s)
    || (key.LNumber? && text == h.numberText(key.n))
    || (!key.LString? && !key.LNumber? && text == "")
  }

  /** An object has a field for each spelling of a key; entries spelled alike leave the last one's value. */
  lemma {:induction false} FieldsAre(h: Heap, entries: seq<Entry>, depth: nat, i: nat, text: string)
    requires h.Valid() && depth <= MAX_TABLE_DEPTH && forall e | e in entries :: h.Holds(e.value)
    requires i < |entries| && Fields(h, entries, depth).Ok? && Spells(h, entries[i].key, text)
    requires forall k | i < k < |entries| :: !Spells(h, entries[k].key, text)
    ensures text in Fields(h, entries, depth).value
    ensures ToAny(h, entries[i].value, depth) == Ok(Fields(h, entries, depth).value[text])
  {
    var rest := entries[..|entries| - 1];
    if i < |rest| {
      assert rest[i] == entries[i] && !Spells(h, entries[|rest|].key, text);
      FieldsAre(h, rest, depth, i, text);
    }
  }

  /** And no other field. */
  lemma {:induction false} OnlySpelledFields(h: Heap, entries: seq<Entry>, depth: nat, text: string) returns (i: nat)
    requires h.Valid() && depth <= MAX_TABLE_DEPTH && forall e | e in entries :: h.Holds(e.value)
    requires Fields(h, entries, depth).Ok? && text in Fields(h, entries, depth).value
    ensures i < |entries| && Spells(h, entries[i].key, text)
  {
    var n := |entries| - 1;
    if Spells(h, entries[n].key, text) {
      i := n;
    } else {
      i := OnlySpelledFields(h, entries[..n], depth, text);
    }
  }

  /** A table whose keys are not 1..n converts to the object of its fields. */
  lemma ObjectOtherwise(h: Heap, ref: nat, depth: nat)
    requires h.Valid() && ref in h.tables && depth < 100
    requires h.tables[ref].maxN == 0 || h.tables[ref].Keys() != Indexes(h.tables[ref].maxN)
    ensures var fields := Fields(h, h.tables[ref].entries, depth + 1);
            ToAny(h, LTable(ref), depth) == if fields.Ok? then Ok(Object(fields.value)) else Err(fields.error)
  {
    ArrayIffKeysAreIndexes(h.tables[ref]);
  }

  /** A chain of tables, each held by the one before it. */
  ghost predicate Chain(h: Heap, path: seq<nat>)
    requires h.Valid()
  {
    && path != [] && (forall r | r in path :: r in h.tables)
    && forall i | 0 <= i < |path| - 1 :: Child(h, path[i], path[i + 1])
  }

  predicate Child(h: Heap, parent: nat, child: nat) {
    parent in h.tables && exists e | e in h.tables[parent].entries :: e.value == LTable(child)
  }

  lemma {:induction false} LongChainFails(h: Heap, path: seq<nat>, n: nat)
    requires h.Valid() && Chain(h, path) && |path| > n
    ensures !Convertible(h, LTable(path[0]), n)
    decreases n
  {
    if n > 0 {
      assert Child(h, path[0], path[1]);
      forall i | 0 <= i < |path[1..]| - 1 ensures Child(h, path[1..][i], path[1..][i + 1]) {
        assert Child(h, path[i + 1], path[i + 1 + 1]);
      }
      LongChainFails(h, path[1..], n - 1);
    }
  }

  /** A chain that ends where it already was can be walked for ever. */
  lemma {:induction false} CycleGivesLongChain(h: Heap, path: seq<nat>, i: nat, n: nat) returns (long: seq<nat>)
    requires h.Valid() && Chain(h, path) && i < |path| - 1 && path[i] == path[|path| - 1]
    ensures Chain(h, long) && long[0] == path[0] && |long| > n
    decreases n - |path|
  {
    if |path| > n {
      long := path;
    } else {
      var longer := path + path[i + 1..];
      forall k | 0 <= k < |longer| - 1 ensures Child(h, longer[k], longer[k + 1]) {
        if k < |path| - 1 {
          assert Child(h, path[k], path[k + 1]);
        } else {
          var m := i + k - (|path| - 1);
          assert longer[k] == path[m] && longer[k + 1] == path[m + 1];
          assert Child(h, path[m], path[m + 1]);
        }
      }
      long := CycleGivesLongChain(h, longer, i, n);
    }
  }

  /** Converting a table from which a cycle can be reached is an error, never a crash. */
  lemma CycleIsAnError(h: Heap, path: seq<nat>, i: nat)
    requires h.Valid() && Chain(h, path) && i < |path| - 1 && path[i] == path[|path| - 1]
    ensures ToAny(h, LTable(path[0]), 0).Err?
  {
    var long := CycleGivesLongChain(h, path, i, MAX_TABLE_DEPTH);
    LongChainFails(h, long, MAX_TABLE_DEPTH);
    ConvertsIff(h, LTable(path[0]), 0);
  }

  // ---------- The round trip ----------

  /** No null inside a container and no empty array. */
  predicate Clean(v: Any) {
    match v
    case Array(items) => items != [] && forall x | x in items :: x != Null && Clean(x)
    case Object(m) => forall k | k in m :: m[k] != Null && Clean(m[k])
    case _ => true
  }

  /** At most n containers deep. */
  predicate Nests(v: Any, n: nat)
    decreases n
  {
    match v
    case Array(items) => n > 0 && forall x | x in items :: Nests(x, n - 1)
    case Object(m) => n > 0 && forall k | k in m :: Nests(m[k], n - 1)
    case _ => true
  }

  lemma {:induction false} FilledCount(h: Heap, lo: nat, entries: seq<Entry>, items: seq<Any>)
    requires ItemsFilled(h, lo, entries, items)
    ensures |entries| <= |items| && (|entries| == |items| <==> Null !in items)
    ensures items != [] && Null !in items ==> LastFilled(items) == |items|
    ensures Null !in items ==> forall i | 0 <= i < |items| ::
              entries[i].key == IntKey(i + 1) && Represents(h, lo, entries[i].value, items[i])
  {
    if items != [] {
      var n := |items| - 1;
      assert items == items[..n] + [items[n]];
      FilledCount(h, lo, if items[n] == Null then entries else entries[..|entries| - 1], items[..n]);
    }
  }

  /** What the array branch yields, element by element. */
  lemma ArrayYields(h: Heap, t: Table, items: seq<Any>, depth: nat)
    requires h.Valid() && depth <= MAX_TABLE_DEPTH && t.Valid() && forall e | e in t.entries :: h.Holds(e.value)
    requires |t.entries| == |items| == t.maxN > 0 && forall i: nat | i < |items| :: t.entries[i].key == IntKey(i + 1)
    ensures TableToAny(h, t, depth) == Ok(Array(items)) <==>
            forall i | 0 <= i < |items| :: ToAny(h, t.entries[i].value, depth) == Ok(items[i])
  {
    ItemsConvert(h, t, t.maxN, depth);
    forall i | 0 <= i < |items| ensures t.At(i + 1) == t.entries[i].value {
      RawGetFinds(t.entries, t.entries[i]);
    }
    if forall i | 0 <= i < |items| :: ToAny(h, t.entries[i].value, depth) == Ok(items[i]) {
      forall i: nat | 1 <= i <= t.maxN ensures ToAny(h, t.At(i), depth) == Ok(items[i - 1]) {
        assert t.At(i - 1 + 1) == t.entries[i - 1].value;
      }
      assert Items(h, t, t.maxN, depth).value == items;
    }
  }

  /** Every entry has a string of its own as key. */
  ghost predicate StringKeyed(entries: seq<Entry>) {
    && (forall e | e in entries :: e.key.LString?)
    && (forall i, j | 0 <= i < j < |entries| :: entries[i].key != entries[j].key)
  }

  lemma {:induction false} ObjectKeys(h: Heap, entries: seq<Entry>, depth: nat)
    requires h.Valid() && depth <= MAX_TABLE_DEPTH && (forall e | e in entries :: h.Holds(e.value))
            && StringKeyed(entries)
    requires Fields(h, entries, depth).Ok?
    ensures forall k :: k in Fields(h, entries, depth).value <==> HasKey(entries, k)
  {
    if entries != [] {
      var rest, last := entries[..|entries| - 1], entries[|entries| - 1];
      assert entries == rest + [last];
      ObjectKeys(h, rest, depth);
      forall k ensures HasKey(entries, k) <==> HasKey(rest, k) || k == last.key.s {
        HasKeySnoc(rest, last, k);
      }
    }
  }

  lemma {:induction false} ObjectValue(h: Heap, entries: seq<Entry>, depth: nat, e: Entry)
    requires h.Valid() && depth <= MAX_TABLE_DEPTH && (forall e | e in entries :: h.Holds(e.value))
            && StringKeyed(entries)
    requires Fields(h, entries, depth).Ok? && e in entries
    ensures e.key.s in Fields(h, entries, depth).value
    ensures ToAny(h, e.value, depth) == Ok(Fields(h, entries, depth).value[e.key.s])
  {
    var rest, last := entries[..|entries| - 1], entries[|entries| - 1];
    assert entries == rest + [last];
    if e != last { ObjectValue(h, rest, depth, e); }
  }

  /** What the object branch yields when every key is a string of its own. */
  lemma {:induction false} ObjectYields(h: Heap, entries: seq<Entry>, depth: nat)
    requires h.Valid() && depth <= MAX_TABLE_DEPTH && (forall e | e in entries :: h.Holds(e.value))
            && StringKeyed(entries)
    requires Fields(h, entries, depth).Ok?
    ensures forall k :: k in Fields(h, entries, depth).value <==> HasKey(entries, k)
    ensures forall e | e in entries ::
              && e.key.s in Fields(h, entries, depth).value
              && ToAny(h, e.value, depth) == Ok(Fields(h, entries, depth).value[e.key.s])
  {
    ObjectKeys(h, entries, depth);
    forall e | e in entries
      ensures e.key.s in Fields(h, entries, depth).value
      ensures ToAny(h, e.value, depth) == Ok(Fields(h, entries, depth).value[e.key.s])
    {
      ObjectValue(h, entries, depth, e);
    }
  }

  lemma HasKeySnoc(rest: seq<Entry>, last: Entry, k: string)
    ensures HasKey(rest + [last], k) <==> HasKey(rest, k) || last.key == LString(k)
  {
    assert last in rest + [last];
    if HasKey(rest, k) {
      var e :| e in rest && e.key == LString(k);
      assert e in rest + [last];
    }
  }

  /**
   * Converting back what anyToLua built gives the value again exactly when it is clean and nests at most the depth
   * limit.
   */
  lemma {:induction false} RoundTripIff(h: Heap, lo: nat, lv: LValue, v: Any, depth: nat)
    requires h.Valid() && h.Holds(lv) && depth <= MAX_TABLE_DEPTH && Represents(h, lo, lv, v)
    ensures ToAny(h, lv, depth) == Ok(v) <==> RoundTrips(v, MAX_TABLE_DEPTH - depth)
    decreases v, 1
  {
    if lv.LTable? && depth < MAX_TABLE_DEPTH {
      if v.Array? {
        ArrayRoundTripIff(h, lv.ref, v, depth + 1);
      } else {
        ObjectRoundTripIff(h, lv.ref, v, depth + 1);
      }
    }
  }

  predicate RoundTrips(v: Any, n: nat) {
    Clean(v) && Nests(v, n)
  }

  lemma {:induction false} ArrayRoundTripIff(h: Heap, ref: nat, v: Any, depth: nat)
    requires h.Valid() && 0 < depth <= MAX_TABLE_DEPTH && v.Array? && Represents(h, 0, LTable(ref), v)
    ensures TableToAny(h, h.tables[ref], depth) == Ok(v) <==> RoundTrips(v, MAX_TABLE_DEPTH - depth + 1)
    decreases v, 0
  {
    var t, items, n := h.tables[ref], v.items, MAX_TABLE_DEPTH - depth;
    FilledCount(h, ref + 1, t.entries, items);
    if Null !in items && items != [] {
      forall i | 0 <= i < |items|
        ensures ToAny(h, t.entries[i].value, depth) == Ok(items[i]) <==> RoundTrips(items[i], n)
      {
        RoundTripIff(h, ref + 1, t.entries[i].value, items[i], depth);
      }
      ArrayYields(h, t, items, depth);
      ItemsRoundTrip(items, n);
    } else {
      HolesShow(h, t, items, depth);
      assert !Clean(v);
    }
  }

  /** With holes, or empty, a table is not an array of as many elements. */
  lemma HolesShow(h: Heap, t: Table, items: seq<Any>, depth: nat)
    requires h.Valid() && depth <= MAX_TABLE_DEPTH && t.Valid() && forall e | e in t.entries :: h.Holds(e.value)
    requires |t.entries| < |items| || items == []
    ensures TableToAny(h, t, depth) != Ok(Array(items))
  {
  }

  lemma ItemsRoundTrip(items: seq<Any>, n: nat)
    requires Null !in items && items != []
    ensures RoundTrips(Array(items), n + 1) <==> forall i | 0 <= i < |items| :: RoundTrips(items[i], n)
  {
    if RoundTrips(Array(items), n + 1) {
      forall i | 0 <= i < |items| ensures RoundTrips(items[i], n) { assert items[i] in items; }
    }
    if forall i | 0 <= i < |items| :: RoundTrips(items[i], n) {
      forall x | x in items ensures x != Null && Clean(x) && Nests(x, n) {
        var i :| 0 <= i < |items| && items[i] == x;
        assert RoundTrips(items[i], n);
      }
    }
  }

  lemma {:induction false} ObjectRoundTripIff(h: Heap, ref: nat, v: Any, depth: nat)
    requires h.Valid() && 0 < depth <= MAX_TABLE_DEPTH && v.Object? && Represents(h, 0, LTable(ref), v)
    ensures TableToAny(h, h.tables[ref], depth) == Ok(v) <==> RoundTrips(v, MAX_TABLE_DEPTH - depth + 1)
    decreases v, 0
  {
    var t, m, n := h.tables[ref], v.fields, MAX_TABLE_DEPTH - depth;
    forall e | e in t.entries
      ensures ToAny(h, e.value, depth) == Ok(m[e.key.s]) <==> RoundTrips(m[e.key.s], n)
    {
      RoundTripIff(h, ref + 1, e.value, m[e.key.s], depth);
    }
    ObjectRoundTrip(h, t, m, depth);
    if forall k | k in m :: m[k] != Null {
      assert forall k | k in m :: HasKey(t.entries, k);
      assert RoundTrips(v, n + 1) <==> forall e | e in t.entries :: RoundTrips(m[e.key.s], n);
    }
  }

  lemma ObjectRoundTrip(h: Heap, t: Table, m: map<string, Any>, depth: nat)
    requires h.Valid() && depth <= MAX_TABLE_DEPTH && t.Valid() && t.maxN == 0
            && forall e | e in t.entries :: h.Holds(e.value)
    requires forall e | e in t.entries :: e.key.LString? && e.key.s in m && m[e.key.s] != Null
    requires forall k | k in m && m[k] != Null :: HasKey(t.entries, k)
    ensures TableToAny(h, t, depth) == Ok(Object(m)) <==>
            && (forall k | k in m :: m[k] != Null)
            && forall e | e in t.entries :: ToAny(h, e.value, depth) == Ok(m[e.key.s])
  {
    FieldsConvert(h, t.entries, depth);
    if Fields(h, t.entries, depth).Ok? {
      ObjectYields(h, t.entries, depth);
      var got := Fields(h, t.entries, depth).value;
      if (forall k | k in m :: m[k] != Null)
         && forall e | e in t.entries :: ToAny(h, e.value, depth) == Ok(m[e.key.s]) {
        assert got.Keys == m.Keys;
        assert got == m;
      }
    }
  }

  /** From the top: JSON comes back as it was exactly when it is clean and nests at most a hundred containers. */
  lemma JsonRoundTripIff(h: Heap, lo: nat, lv: LValue, v: Any)
    requires h.Valid() && h.Holds(lv) && Represents(h, lo, lv, v)
    ensures ToAny(h, lv, 0) == Ok(v) <==> Clean(v) && Nests(v, 100)
  {
    RoundTripIff(h, lo, lv, v, 0);
  }
}
