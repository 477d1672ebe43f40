// Retention: which history rows a purge deletes, rule by rule.
module Purge {
  import Timestamps

  datatype Rule = Rule(pattern: string, days: int)

  /** A history row; rows are told apart by their number. */
  datatype Row = Row(number: nat, entityId: string, changedAt: string)

  /**
   * A purge at one instant: glob is the database's pattern matching, cutoff the text of the instant so many days
   * back.
   */
  datatype Policy = Policy(rules: seq<Rule>, retentionDays: int, glob: (string, string) -> bool, cutoff: int -> string)

  function Kept(rules: seq<Rule>): seq<Rule> {
    if rules == [] then []
    else
      var rest, r := Kept(rules[..|rules| - 1]), rules[|rules| - 1];
      if r.pattern != "" && r.days > 0 then rest + [r] else rest
  }

  /** The rules with a pattern and a window of at least a day are kept, each where it stood: at says where. */
  lemma {:induction false} KeptAre(rules: seq<Rule>) returns (at: seq<nat>)
    ensures |at| == |Kept(rules)| && forall k | 0 <= k < |at| :: at[k] < |rules| && Kept(rules)[k] == rules[at[k]]
    ensures forall k, m | 0 <= k < m < |at| :: at[k] < at[m]
    ensures forall i: nat | i < |rules| :: i in at <==> rules[i].pattern != "" && rules[i].days >= 1
  {
    if rules == [] {
      at := [];
    } else {
      var n := |rules| - 1;
      at := KeptAre(rules[..n]);
      assert rules == rules[..n] + [rules[n]];
      assert n !in at;
      if rules[n].pattern != "" && rules[n].days > 0 { at := at + [n]; }
    }
  }

  // ---------- What is retained ----------

  predicate Claims(p: Policy, k: nat, entityId: string)
    requires k < |p.rules|
  {
    p.glob(p.rules[k].pattern, entityId)
  }

  /** The first rule that matches the entity; one past the last if none does. */
  function FirstRule(p: Policy, entityId: string, from: nat := 0): (k: nat)
    requires from <= |p.rules|
    ensures from <= k <= |p.rules|
    ensures k < |p.rules| ==> Claims(p, k, entityId)
    ensures forall j: nat | from <= j < k :: !Claims(p, j, entityId)
    decreases |p.rules| - from
  {
    if from == |p.rules| || Claims(p, from, entityId) then from else FirstRule(p, entityId, from + 1)
  }

  /** How long the k-th statement keeps its rows; the last statement is the default's. */
  function DaysOf(p: Policy, k: nat): int
    requires k <= |p.rules|
  {
    if k < |p.rules| then p.rules[k].days else p.retentionDays
  }

  predicate Expired(p: Policy, row: Row, days: int) {
    Timestamps.Less(row.changedAt, p.cutoff(days))
  }

  /** A row survives unless it is older than the window of the first rule matching its entity, or of the default. */
  predicate Survives(p: Policy, row: Row) {
    !Expired(p, row, DaysOf(p, FirstRule(p, row.entityId)))
  }

  function Filter(rows: seq<Row>, keep: Row -> bool): seq<Row> {
    if rows == [] then []
    else
      var rest, row := Filter(rows[..|rows| - 1], keep), rows[|rows| - 1];
      if keep(row) then rest + [row] else rest
  }

  function Retained(p: Policy, rows: seq<Row>): seq<Row> {
    Filter(rows, row => Survives(p, row))
  }

  // ---------- The statements ----------

  /** The k-th DELETE: its own pattern if it is a rule's, its window, and none of the patterns before it. */
  predicate Selects(p: Policy, k: nat, row: Row)
    requires k <= |p.rules|
  {
    && (k < |p.rules| ==> Claims(p, k, row.entityId))
    && Expired(p, row, DaysOf(p, k))
    && (forall j: nat | j < k :: !Claims(p, j, row.entityId))
  }

  lemma SelectsIff(p: Policy, k: nat, row: Row)
    requires k <= |p.rules|
    ensures Selects(p, k, row) <==> FirstRule(p, row.entityId) == k && Expired(p, row, DaysOf(p, k))
  {
    assert forall j: nat | j < FirstRule(p, row.entityId) :: !Claims(p, j, row.entityId);
    if FirstRule(p, row.entityId) < k { assert Claims(p, FirstRule(p, row.entityId), row.entityId); }
  }

  /** What the first n statements leave. */
  predicate Outlives(p: Policy, n: nat, row: Row) {
    Survives(p, row) || FirstRule(p, row.entityId) >= n
  }

  /** The rows the first n statements leave. */
  function After(p: Policy, n: nat, rows: seq<Row>): seq<Row> {
    Filter(rows, row => Outlives(p, n, row))
  }

  /** The rows one statement leaves. */
  function Minus(p: Policy, k: nat, rows: seq<Row>): seq<Row>
    requires k <= |p.rules|
  {
    Filter(rows, row => !Selects(p, k, row))
  }

  lemma {:induction false} FilterFilter(rows: seq<Row>, f: Row -> bool, g: Row -> bool, h: Row -> bool)
    requires forall row | row in rows :: h(row) == (f(row) && g(row))
    ensures Filter(Filter(rows, f), g) == Filter(rows, h)
  {
    if rows != [] {
      var rest, row := rows[..|rows| - 1], rows[|rows| - 1];
      assert rows == rest + [row];
      FilterFilter(rest, f, g, h);
      assert (Filter(rest, f) + [row])[..|Filter(rest, f)|] == Filter(rest, f);
    }
  }

  lemma {:induction false} FilterAll(rows: seq<Row>, keep: Row -> bool)
    requires forall row | row in rows :: keep(row)
    ensures Filter(rows, keep) == rows
  {
    if rows != [] {
      var rest, row := rows[..|rows| - 1], rows[|rows| - 1];
      assert rows == rest + [row];
      FilterAll(rest, keep);
    }
  }

  lemma {:induction false} FilterHas(rows: seq<Row>, keep: Row -> bool)
    ensures forall row :: row in Filter(rows, keep) <==> row in rows && keep(row)
    ensures |Filter(rows, keep)| <= |rows|
  {
    if rows != [] {
      var rest, row := rows[..|rows| - 1], rows[|rows| - 1];
      assert rows == rest + [row];
      FilterHas(rest, keep);
    }
  }

  /** A second purge at the same instant finds nothing to delete. */
  lemma SecondRunRemovesNothing(p: Policy, rows: seq<Row>)
    ensures Retained(p, Retained(p, rows)) == Retained(p, rows)
  {
    FilterHas(rows, row => Survives(p, row));
    FilterAll(Retained(p, rows), row => Survives(p, row));
  }

  /**
   * A row is retained exactly when it was there and its text does not sort before the cutoff of the first rule whose
   * pattern matches its entity, or of the default if there is none: k counts the rules that come before.
   */
  lemma RetainedIff(p: Policy, rows: seq<Row>, row: Row, k: nat)
    requires k <= |p.rules| && (k < |p.rules| ==> p.glob(p.rules[k].pattern, row.entityId))
    requires forall j: nat | j < k :: !Claims(p, j, row.entityId)
    ensures var days := if k < |p.rules| then p.rules[k].days else p.retentionDays;
            row in Retained(p, rows) <==> row in rows && !Timestamps.Less(row.changedAt, p.cutoff(days))
  {
    FilterHas(rows, r => Survives(p, r));
    FirstRuleIs(p, row.entityId, k);
  }

  lemma FirstRuleIs(p: Policy, entityId: string, k: nat)
    requires k <= |p.rules| && (k < |p.rules| ==> Claims(p, k, entityId))
    requires forall j: nat | j < k :: !Claims(p, j, entityId)
    ensures FirstRule(p, entityId) == k
  {
  }

  /**
   * A cutoff is a time to the second with a 'Z' after it, so the rows that do not sort before it are exactly those of
   * later seconds: what was recorded within the cutoff's own second goes.
   */
  lemma CutoffIsToTheSecond(p: Policy, rows: seq<Row>, row: Row, f: Timestamps.Fields, days: int, at: Timestamps.Fields)
    requires f.Valid() && at.Valid() && p.cutoff(days) == at.Bound() + "Z" && row.changedAt == f.Text()
    requires days == DaysOf(p, FirstRule(p, row.entityId))
    ensures row in Retained(p, rows) <==> row in rows && f.SecondNumber() > at.SecondNumber()
  {
    FilterHas(rows, r => Survives(p, r));
    Timestamps.ZonedBoundSplits(f, at);
  }

  // ---------- The purger ----------

  class History {
    var rows: seq<Row>

    /** One statement; the database reports how many rows it removed. */
    method Delete(p: Policy, k: nat) returns (n: nat)
      requires k <= |p.rules|
      modifies this
      ensures rows == Minus(p, k, old(rows)) && n == |old(rows)| - |rows|
    {
      var before := rows;
      FilterHas(rows, row => !Selects(p, k, row));
      rows := Minus(p, k, rows);
      n := |before| - |rows|;
    }
  }

  /** Running the next statement on what the earlier ones left. */
  lemma NextStatement(p: Policy, k: nat, rows: seq<Row>)
    requires k <= |p.rules|
    ensures Minus(p, k, After(p, k, rows)) == After(p, k + 1, rows)
  {
    forall row | row in rows ensures Outlives(p, k + 1, row) == (Outlives(p, k, row) && !Selects(p, k, row)) {
      SelectsIff(p, k, row);
    }
    FilterFilter(rows, row => Outlives(p, k, row), row => !Selects(p, k, row), row => Outlives(p, k + 1, row));
  }

  /** Before any statement nothing is gone; after all of them, what the rules retain is left. */
  lemma FirstAndLast(p: Policy, rows: seq<Row>)
    ensures After(p, 0, rows) == rows
    ensures After(p, |p.rules| + 1, rows) == Retained(p, rows)
  {
    FilterAll(rows, row => Outlives(p, 0, row));
    FilterSame(rows, row => Outlives(p, |p.rules| + 1, row), row => Survives(p, row));
  }

  lemma {:induction false} FilterSame(rows: seq<Row>, f: Row -> bool, g: Row -> bool)
    requires forall row | row in rows :: f(row) == g(row)
    ensures Filter(rows, f) == Filter(rows, g)
  {
    if rows != [] {
      var rest, row := rows[..|rows| - 1], rows[|rows| - 1];
      assert rows == rest + [row];
      FilterSame(rest, f, g);
    }
  }

  method KeepWellFormed(rules: seq<Rule>) returns (kept: seq<Rule>)
    ensures kept == Kept(rules)
  {
    kept := [];
    for i := 0 to |rules|
      invariant kept == Kept(rules[..i])
    {
      var r := rules[i];
      assert rules[..i + 1][..i] == rules[..i];
      if r.pattern == "" || r.days <= 0 {
        continue;
      }
      kept := kept + [r];
    }
    assert rules[..|rules|] == rules;
  }

  class Purger {
    const db: History
    const retentionDays: int
    const rules: seq<Rule>

    constructor (db: History, retentionDays: int, rules: seq<Rule>)
      ensures this.db == db && this.retentionDays == retentionDays && this.rules == Kept(rules)
    {
      this.db, this.retentionDays := db, retentionDays;
      var kept := KeepWellFormed(rules);
      this.rules := kept;
    }

    /**
     * One purge; failAt is the statement the database fails at, if any, and the statements before it keep their
     * effect.
     */
    method RunOnce(glob: (string, string) -> bool, cutoff: int -> string, failAt: int) returns (ok: bool, total: nat)
      modifies db
      ensures var p := Policy(rules, retentionDays, glob, cutoff);
              && (ok <==> !(0 <= failAt <= |rules|))
              && (ok ==> db.rows == Retained(p, old(db.rows)))
              && (!ok ==> db.rows == After(p, failAt, old(db.rows)))
              && total == |old(db.rows)| - |db.rows|
    {
      var p := Policy(rules, retentionDays, glob, cutoff);
      total := 0;
      FirstAndLast(p, db.rows);
      for i := 0 to |rules|
        invariant !(0 <= failAt < i)
        invariant db.rows == After(p, i, old(db.rows))
        invariant total == |old(db.rows)| - |db.rows|
      {
        if failAt == i {
          return false, total;
        }
        var n := db.Delete(p, i);
        NextStatement(p, i, old(db.rows));
        total := total + n;
      }
      if failAt == |rules| {
        return false, total;
      }
      var n := db.Delete(p, |rules|);
      NextStatement(p, |rules|, old(db.rows));
      return true, total + n;
    }
  }
}
