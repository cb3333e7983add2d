/** The staged table of `DB.mutateExpenses` (lib/db.ts): a temporary table keyed by
    `_id`, filled from the ledger, changed by `INSERT OR REPLACE` statements, and copied
    out ordered by date, category, label, amount and deleted. */
module Staging {
  import opened Wrappers
  import opened Sequences
  import opened Dates
  import opened Expenses

  // ---------------------------------------------------------------------------
  // Upsert by primary key
  // ---------------------------------------------------------------------------

  function HasOtherId(id: string): Expense -> bool {
    (e: Expense) => e.id != id
  }

  /** `INSERT OR REPLACE` of one row: any row with the same key goes, the new row is added. */
  function Upsert(rows: seq<Expense>, e: Expense): (r: seq<Expense>)
    ensures |r| <= |rows| + 1
    ensures e in r
  {
    Filter(rows, HasOtherId(e.id)) + [e]
  }

  lemma UpsertMembership(rows: seq<Expense>, e: Expense, x: Expense)
    ensures x in Upsert(rows, e) <==> x == e || (x.id != e.id && x in rows)
  {
    FilterMembership(rows, HasOtherId(e.id), x);
  }

  /** The rows after a batch of upserts, applied in order. */
  function ApplyUpserts(rows: seq<Expense>, batch: seq<Expense>): seq<Expense>
    decreases |batch|
  {
    if batch == [] then rows
    else Upsert(ApplyUpserts(rows, batch[..|batch| - 1]), batch[|batch| - 1])
  }

  /** A row survives the batch when it is the last upsert of its key, or when its key is
      never upserted and it was there before: the later statement wins and other rows
      are unchanged. */
  lemma {:induction false} ApplyUpsertsMembership(rows: seq<Expense>, batch: seq<Expense>, x: Expense)
    ensures x in ApplyUpserts(rows, batch) <==>
      LastById(batch, x.id) == Some(x) || (LastById(batch, x.id) == None && x in rows)
    decreases |batch|
  {
    if batch != [] {
      var init, last := batch[..|batch| - 1], batch[|batch| - 1];
      assert batch == init + [last];
      LastByIdSnoc(init, last, x.id);
      UpsertMembership(ApplyUpserts(rows, init), last, x);
      ApplyUpsertsMembership(rows, init, x);
    }
  }

  lemma {:induction false} SubsequenceKeepsUniqueIds(xs: seq<Expense>, ys: seq<Expense>)
    requires IsSubsequence(xs, ys) && UniqueIds(ys)
    ensures UniqueIds(xs)
  {
    var idx: seq<nat> :| Embeds(idx, xs, ys);
    forall i, j | 0 <= i < j < |xs|
      ensures xs[i].id != xs[j].id
    {
      assert idx[i] < idx[j];
    }
  }

  /** The primary key holds after every upsert. */
  lemma UpsertKeepsUniqueIds(rows: seq<Expense>, e: Expense)
    requires UniqueIds(rows)
    ensures UniqueIds(Upsert(rows, e))
  {
    var kept := Filter(rows, HasOtherId(e.id));
    FilterIsSubsequence(rows, HasOtherId(e.id));
    SubsequenceKeepsUniqueIds(kept, rows);
    FilterAllSatisfy(rows, HasOtherId(e.id));
    var r := kept + [e];
    forall i, j | 0 <= i < j < |r|
      ensures r[i].id != r[j].id
    {
      if j == |kept| {
        assert HasOtherId(e.id)(kept[i]);
      }
    }
  }

  /** Each `_id` appears at most once in the staged table, whatever the batch. */
  lemma {:induction false} ApplyUpsertsKeepsUniqueIds(rows: seq<Expense>, batch: seq<Expense>)
    requires UniqueIds(rows)
    ensures UniqueIds(ApplyUpserts(rows, batch))
    decreases |batch|
  {
    if batch != [] {
      ApplyUpsertsKeepsUniqueIds(rows, batch[..|batch| - 1]);
      UpsertKeepsUniqueIds(ApplyUpserts(rows, batch[..|batch| - 1]), batch[|batch| - 1]);
    }
  }

  // ---------------------------------------------------------------------------
  // ORDER BY date, category, label, amount, deleted
  // ---------------------------------------------------------------------------

  /** Byte order of VARCHAR values, which on code points is lexicographic order. */
  predicate TextLeq(a: string, b: string)
    decreases |a|
  {
    a == [] || (b != [] && (a[0] < b[0] || (a[0] == b[0] && TextLeq(a[1..], b[1..]))))
  }

  lemma {:induction false} TextLeqTotal(a: string, b: string)
    ensures TextLeq(a, b) || TextLeq(b, a)
    decreases |a|
  {
    if a != [] && b != [] && a[0] == b[0] {
      TextLeqTotal(a[1..], b[1..]);
    }
  }

  lemma {:induction false} TextLeqTransitive(a: string, b: string, c: string)
    requires TextLeq(a, b) && TextLeq(b, c)
    ensures TextLeq(a, c)
    decreases |a|
  {
    if a != [] && a[0] == b[0] && b[0] == c[0] {
      TextLeqTransitive(a[1..], b[1..], c[1..]);
    }
  }

  lemma {:induction false} TextLeqAntisymmetric(a: string, b: string)
    requires TextLeq(a, b) && TextLeq(b, a)
    ensures a == b
    decreases |a|
  {
    if a != [] {
      TextLeqAntisymmetric(a[1..], b[1..]);
      assert a == [a[0]] + a[1..] && b == [b[0]] + b[1..];
    }
  }

  /** The `date` column is a DATE: only the calendar day takes part in the order. */
  predicate DayLeq(a: CalDate, b: CalDate) {
    a.year < b.year || (a.year == b.year && (a.month < b.month || (a.month == b.month && a.day <= b.day)))
  }

  predicate SameDay(a: CalDate, b: CalDate) {
    a.year == b.year && a.month == b.month && a.day == b.day
  }

  /** The output order: each key decides unless the previous ones are equal; `false`
      sorts before `true`. */
  predicate RowLeq(a: Expense, b: Expense) {
    if !SameDay(a.date, b.date) then DayLeq(a.date, b.date)
    else if a.category != b.category then TextLeq(a.category, b.category)
    else if a.labelText != b.labelText then TextLeq(a.labelText, b.labelText)
    else if a.amount != b.amount then a.amount < b.amount
    else !a.deleted || b.deleted
  }

  lemma RowLeqTotal(a: Expense, b: Expense)
    ensures RowLeq(a, b) || RowLeq(b, a)
  {
    TextLeqTotal(a.category, b.category);
    TextLeqTotal(a.labelText, b.labelText);
  }

  lemma RowLeqTransitive(a: Expense, b: Expense, c: Expense)
    requires RowLeq(a, b) && RowLeq(b, c)
    ensures RowLeq(a, c)
  {
    if SameDay(a.date, b.date) && SameDay(b.date, c.date) {
      if a.category != b.category && b.category != c.category {
        TextLeqTransitive(a.category, b.category, c.category);
        if a.category == c.category {
          TextLeqAntisymmetric(a.category, b.category);
        }
      } else if a.category == b.category && b.category == c.category {
        if a.labelText != b.labelText && b.labelText != c.labelText {
          TextLeqTransitive(a.labelText, b.labelText, c.labelText);
          if a.labelText == c.labelText {
            TextLeqAntisymmetric(a.labelText, b.labelText);
          }
        }
      }
    }
  }

  predicate SortedRows(rows: seq<Expense>) {
    forall i, j :: 0 <= i < j < |rows| ==> RowLeq(rows[i], rows[j])
  }

  /** Inserts a row after every row not greater than it. */
  function InsertRow(x: Expense, sorted: seq<Expense>): (r: seq<Expense>)
    ensures multiset(r) == multiset(sorted) + multiset{x}
    decreases |sorted|
  {
    if sorted == [] then [x]
    else if RowLeq(sorted[0], x) then
      assert sorted == [sorted[0]] + sorted[1..];
      [sorted[0]] + InsertRow(x, sorted[1..])
    else [x] + sorted
  }

  /** A row below every row of a sequence is below every row of it with `x` inserted. */
  lemma InsertRowLowerBound(y: Expense, x: Expense, sorted: seq<Expense>)
    requires RowLeq(y, x) && forall k :: 0 <= k < |sorted| ==> RowLeq(y, sorted[k])
    ensures forall k :: 0 <= k < |InsertRow(x, sorted)| ==> RowLeq(y, InsertRow(x, sorted)[k])
  {
    var r := InsertRow(x, sorted);
    forall k | 0 <= k < |r|
      ensures RowLeq(y, r[k])
    {
      assert r[k] in multiset(r);
      if r[k] != x {
        assert r[k] in multiset(sorted);
      }
    }
  }

  lemma {:induction false} InsertRowSorted(x: Expense, sorted: seq<Expense>)
    requires SortedRows(sorted)
    ensures SortedRows(InsertRow(x, sorted))
    decreases |sorted|
  {
    if sorted != [] {
      if RowLeq(sorted[0], x) {
        InsertRowSorted(x, sorted[1..]);
        InsertRowLowerBound(sorted[0], x, sorted[1..]);
      } else {
        RowLeqTotal(sorted[0], x);
        forall k | 0 <= k < |sorted|
          ensures RowLeq(x, sorted[k])
        {
          if k > 0 {
            RowLeqTransitive(x, sorted[0], sorted[k]);
          }
        }
      }
    }
  }

  /** The output of `SELECT * FROM Expenses ORDER BY date,category,label,amount,deleted`. */
  function SortRows(rows: seq<Expense>): (r: seq<Expense>)
    ensures SortedRows(r)
    ensures multiset(r) == multiset(rows)
    decreases |rows|
  {
    if rows == [] then []
    else
      assert rows == rows[..|rows| - 1] + [rows[|rows| - 1]];
      InsertRowSorted(rows[|rows| - 1], SortRows(rows[..|rows| - 1]));
      InsertRow(rows[|rows| - 1], SortRows(rows[..|rows| - 1]))
  }

  /** What the final `COPY` writes: the ledger upserted with the batch, in output order. */
  function Materialize(rows: seq<Expense>, batch: seq<Expense>): (r: seq<Expense>)
    ensures SortedRows(r)
    ensures multiset(r) == multiset(ApplyUpserts(rows, batch))
  {
    SortRows(ApplyUpserts(rows, batch))
  }

  /** The written ledger holds exactly the upserted rows, once each key. */
  lemma MaterializeContents(rows: seq<Expense>, batch: seq<Expense>, x: Expense)
    requires UniqueIds(rows)
    ensures x in Materialize(rows, batch) <==>
      LastById(batch, x.id) == Some(x) || (LastById(batch, x.id) == None && x in rows)
    ensures UniqueIds(Materialize(rows, batch))
  {
    var applied := ApplyUpserts(rows, batch);
    var out := Materialize(rows, batch);
    assert x in out <==> x in multiset(out);
    assert x in applied <==> x in multiset(applied);
    ApplyUpsertsMembership(rows, batch, x);
    ApplyUpsertsKeepsUniqueIds(rows, batch);
    PermutationKeepsUniqueIds(applied, out);
  }

  lemma PermutationKeepsUniqueIds(xs: seq<Expense>, ys: seq<Expense>)
    requires UniqueIds(xs) && multiset(xs) == multiset(ys)
    ensures UniqueIds(ys)
  {
    forall i, j | 0 <= i < j < |ys|
      ensures ys[i].id != ys[j].id
    {
      if ys[i].id == ys[j].id {
        assert ys[i] in multiset(xs) && ys[j] in multiset(xs);
        var i' :| 0 <= i' < |xs| && xs[i'] == ys[i];
        var j' :| 0 <= j' < |xs| && xs[j'] == ys[j];
        assert i' == j';
        RemoveAt(ys, i);
        RemoveAtIndex(ys, i, j - 1);
        assert ys[j] in ys[..i] + ys[i + 1..];
        CountInUnique(xs, i');
      }
    }
  }

  /** With unique ids, each row occurs exactly once. */
  lemma CountInUnique(xs: seq<Expense>, i: nat)
    requires UniqueIds(xs) && i < |xs|
    ensures multiset(xs)[xs[i]] == 1
  {
    var rest := xs[..i] + xs[i + 1..];
    RemoveAt(xs, i);
    forall k | 0 <= k < |rest|
      ensures rest[k] != xs[i]
    {
      RemoveAtIndex(xs, i, k);
    }
    assert xs[i] !in rest;
  }
}
