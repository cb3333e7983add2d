/** The expense record of lib/expenses.ts, the conversions that build it from untyped
    records, the last-write-wins diff and the generator of monthly occurrences. */
module Expenses {
  import opened Wrappers
  import opened Strings
  import opened Dates
  import opened Sequences

  /** One ledger entry. `updatedAt` is the instant in milliseconds (`Date.getTime()`);
      `amount` is a whole number (the source uses a floating-point number). */
  datatype Expense = Expense(
    id: string,
    date: CalDate,
    amount: int,
    category: string,
    labelText: string,  // `label` in the source; a reserved word in Dafny
    periodicity: string,
    checked: bool,
    deleted: bool,
    updatedAt: int)

  // ---------------------------------------------------------------------------
  // Conversions
  // ---------------------------------------------------------------------------

  /** A JSON or DuckDB field value before coercion. */
  datatype JsValue = JsString(s: string) | JsNumber(n: int) | JsBoolean(b: bool) | JsUndefined

  /** `ExpenseStr` / `RowData`: an untyped record; an absent key reads as `undefined`. */
  type RawRecord = map<string, JsValue>

  /** How the JavaScript runtime reads text: `Number(text)`, the calendar fields of
      `new Date(text)`, and the instant of `new Date(text)`. */
  datatype Parsers = Parsers(number: string -> int, date: string -> CalDate, instant: string -> int)

  function Field(r: RawRecord, key: string): (v: JsValue)
    ensures key !in r ==> v == JsUndefined
  {
    if key in r then r[key] else JsUndefined
  }

  /** `String(v)`. */
  function ToJsString(v: JsValue): (s: string)
    ensures v.JsString? ==> s == v.s
    ensures v.JsNumber? ==> s == IntToString(v.n)
    ensures v.JsBoolean? ==> s == (if v.b then "true" else "false")
    ensures v.JsUndefined? ==> s == "undefined"
  {
    match v
    case JsString(s) => s
    case JsNumber(n) => IntToString(n)
    case JsBoolean(b) => BoolToString(b)
    case JsUndefined => "undefined"
  }

  /** `Boolean(v)`: only the empty string, zero and `undefined` are false. */
  function ToJsBoolean(v: JsValue): (b: bool)
    ensures v.JsBoolean? ==> b == v.b
    ensures !b <==> v in {JsString(""), JsNumber(0), JsBoolean(false), JsUndefined}
  {
    match v
    case JsString(s) => s != ""
    case JsNumber(n) => n != 0
    case JsBoolean(b) => b
    case JsUndefined => false
  }

  /** `Number(v)`; text (and `undefined`, which `Number` treats like the text
      "undefined") goes through the runtime's parser. */
  function ToJsNumber(v: JsValue, p: Parsers): (n: int)
    ensures v.JsNumber? ==> n == v.n
    ensures v.JsBoolean? ==> n == if v.b then 1 else 0
  {
    match v
    case JsString(s) => p.number(s)
    case JsNumber(n) => n
    case JsBoolean(b) => if b then 1 else 0
    case JsUndefined => p.number("undefined")
  }

  /** The names of the fields that the coercion reads. */
  const RecordKeys: set<string> :=
    {"_id", "date", "amount", "category", "label", "periodicity", "checked", "deleted", "updatedAt"}

  /** The field-by-field coercion of one record, with no validation: every record yields an
      expense, a missing text field reads as "undefined" and a missing flag as false. */
  function FromRecord(r: RawRecord, p: Parsers): (e: Expense)
    ensures "_id" !in r ==> e.id == "undefined"
    ensures "category" !in r ==> e.category == "undefined"
    ensures "label" !in r ==> e.labelText == "undefined"
    ensures "periodicity" !in r ==> e.periodicity == "undefined" && !IsMonthly(e)
    ensures "checked" !in r ==> !e.checked
    ensures "deleted" !in r ==> !e.deleted
    ensures "date" !in r ==> e.date == p.date("undefined")
    ensures "updatedAt" !in r ==> e.updatedAt == p.instant("undefined")
  {
    Expense(
      ToJsString(Field(r, "_id")),
      p.date(ToJsString(Field(r, "date"))),
      ToJsNumber(Field(r, "amount"), p),
      ToJsString(Field(r, "category")),
      ToJsString(Field(r, "label")),
      ToJsString(Field(r, "periodicity")),
      ToJsBoolean(Field(r, "checked")),
      ToJsBoolean(Field(r, "deleted")),
      p.instant(ToJsString(Field(r, "updatedAt"))))
  }

  /** Keys other than the nine fields make no difference. */
  lemma FromRecordIgnoresOtherKeys(r: RawRecord, p: Parsers, key: string, v: JsValue)
    requires key !in RecordKeys
    ensures FromRecord(r[key := v], p) == FromRecord(r, p)
  {
    assert forall f :: f in RecordKeys ==> Field(r[key := v], f) == Field(r, f);
  }

  /** `fromUserExpenses`: one expense per record, in the same order; nothing is dropped. */
  function FromUserExpenses(records: seq<RawRecord>, p: Parsers): (es: seq<Expense>)
    ensures |es| == |records|
    ensures forall k :: 0 <= k < |es| ==> es[k] == FromRecord(records[k], p)
    decreases |records|
  {
    if records == [] then []
    else [FromRecord(records[0], p)] + FromUserExpenses(records[1..], p)
  }

  /** `fromDBExpenses`: the same coercion applied to the rows DuckDB returns. */
  function FromDBExpenses(rows: seq<RawRecord>, p: Parsers): (es: seq<Expense>)
    ensures |es| == |rows|
    ensures forall k :: 0 <= k < |es| ==> es[k] == FromRecord(rows[k], p)
  {
    FromUserExpenses(rows, p)
  }

  /** The record a client sends for an expense: text for strings and dates, a number for
      the amount, booleans for the flags. `printDate` and `printInstant` stand for the
      client's JSON date encoding. */
  function ToRecord(e: Expense, printDate: CalDate -> string, printInstant: int -> string): RawRecord {
    map[
      "_id" := JsString(e.id),
      "date" := JsString(printDate(e.date)),
      "amount" := JsNumber(e.amount),
      "category" := JsString(e.category),
      "label" := JsString(e.labelText),
      "periodicity" := JsString(e.periodicity),
      "checked" := JsBoolean(e.checked),
      "deleted" := JsBoolean(e.deleted),
      "updatedAt" := JsString(printInstant(e.updatedAt))]
  }

  /** The runtime's date parsers read back what the client printed. */
  predicate DatesReadBack(e: Expense, p: Parsers, printDate: CalDate -> string, printInstant: int -> string) {
    p.date(printDate(e.date)) == e.date && p.instant(printInstant(e.updatedAt)) == e.updatedAt
  }

  /** Coercing a well-typed record gives back the expense it encodes. */
  lemma FromRecordOfToRecord(e: Expense, p: Parsers, printDate: CalDate -> string, printInstant: int -> string)
    requires DatesReadBack(e, p, printDate, printInstant)
    ensures FromRecord(ToRecord(e, printDate, printInstant), p) == e
  {
  }

  /** `fromUserExpenses` is a left inverse of the client's encoding, element by element. */
  lemma {:induction false} FromUserExpensesRoundTrip(es: seq<Expense>, p: Parsers,
                                                    printDate: CalDate -> string, printInstant: int -> string)
    requires forall k :: 0 <= k < |es| ==> DatesReadBack(es[k], p, printDate, printInstant)
    ensures FromUserExpenses(seq(|es|, k requires 0 <= k < |es| => ToRecord(es[k], printDate, printInstant)), p) == es
  {
    var records := seq(|es|, k requires 0 <= k < |es| => ToRecord(es[k], printDate, printInstant));
    forall k | 0 <= k < |es|
      ensures FromUserExpenses(records, p)[k] == es[k]
    {
      FromRecordOfToRecord(es[k], p, printDate, printInstant);
    }
  }

  // ---------------------------------------------------------------------------
  // Diff
  // ---------------------------------------------------------------------------

  /** What `new Map(olds.map(it => [it._id, it])).get(id)` returns: the last record with that id. */
  function LastById(olds: seq<Expense>, id: string): (r: Option<Expense>)
    ensures r.None? <==> forall k :: 0 <= k < |olds| ==> olds[k].id != id
    ensures r.Some? ==> exists k :: 0 <= k < |olds| && olds[k] == r.value && r.value.id == id
                                 && forall j :: k < j < |olds| ==> olds[j].id != id
    decreases |olds|
  {
    if olds == [] then None
    else if olds[|olds| - 1].id == id then Some(olds[|olds| - 1])
    else LastById(olds[..|olds| - 1], id)
  }

  lemma LastByIdSnoc(olds: seq<Expense>, x: Expense, id: string)
    ensures LastById(olds + [x], id) == if x.id == id then Some(x) else LastById(olds, id)
  {
    assert (olds + [x])[..|olds|] == olds;
  }

  /** The test of `diffExpenses`: absent from `olds`, or strictly newer than its copy there. */
  predicate IsNewer(e: Expense, olds: seq<Expense>) {
    match LastById(olds, e.id)
    case None => true
    case Some(o) => e.updatedAt > o.updatedAt
  }

  function NewerThan(olds: seq<Expense>): Expense -> bool {
    (e: Expense) => IsNewer(e, olds)
  }

  /** The delta `diffExpenses(news, olds)` computes. */
  function Diff(news: seq<Expense>, olds: seq<Expense>): seq<Expense> {
    Filter(news, NewerThan(olds))
  }

  function Lookup(m: map<string, Expense>, id: string): Option<Expense> {
    if id in m then Some(m[id]) else None
  }

  /** `diffExpenses`: index `olds` by id (later entries overwrite earlier ones), then
      keep each element of `news` that is absent from the index or strictly newer. */
  method DiffExpenses(news: seq<Expense>, olds: seq<Expense>) returns (toUpsert: seq<Expense>)
    ensures toUpsert == Diff(news, olds)
  {
    var oldById: map<string, Expense> := map[];
    for i := 0 to |olds|
      invariant forall id :: Lookup(oldById, id) == LastById(olds[..i], id)
    {
      var before := oldById;
      oldById := oldById[olds[i].id := olds[i]];
      assert olds[..i + 1] == olds[..i] + [olds[i]];
      forall id ensures Lookup(oldById, id) == LastById(olds[..i + 1], id) {
        assert Lookup(before, id) == LastById(olds[..i], id);
        LastByIdSnoc(olds[..i], olds[i], id);
      }
    }
    assert olds[..|olds|] == olds;
    toUpsert := [];
    for i := 0 to |news|
      invariant toUpsert == Diff(news[..i], olds)
    {
      var newExpense := news[i];
      assert news[..i + 1][..i] == news[..i];
      if newExpense.id !in oldById || newExpense.updatedAt > oldById[newExpense.id].updatedAt {
        assert IsNewer(newExpense, olds) by {
          assert Lookup(oldById, newExpense.id) == LastById(olds, newExpense.id);
        }
        toUpsert := toUpsert + [newExpense];
      } else {
        assert !IsNewer(newExpense, olds) by {
          assert Lookup(oldById, newExpense.id) == LastById(olds, newExpense.id);
        }
      }
    }
    assert news[..|news|] == news;
  }

  /** The delta holds exactly the elements of `news` absent from `olds` or strictly newer
      than the last copy in `olds`. */
  lemma DiffMembership(news: seq<Expense>, olds: seq<Expense>, e: Expense)
    ensures e in Diff(news, olds) <==>
      e in news && ((forall k :: 0 <= k < |olds| ==> olds[k].id != e.id)
                    || exists k :: 0 <= k < |olds| && olds[k].id == e.id
                                  && (forall j :: k < j < |olds| ==> olds[j].id != e.id)
                                  && e.updatedAt > olds[k].updatedAt)
  {
    FilterMembership(news, NewerThan(olds), e);
    match LastById(olds, e.id)
    case None =>
    case Some(o) =>
      var k :| 0 <= k < |olds| && olds[k] == o && o.id == e.id
               && forall j :: k < j < |olds| ==> olds[j].id != e.id;
      forall k' | 0 <= k' < |olds| && olds[k'].id == e.id && (forall j :: k' < j < |olds| ==> olds[j].id != e.id)
        ensures k' == k
      {
      }
  }

  /** The delta keeps the order of `news` and adds nothing. */
  lemma DiffIsSubsequence(news: seq<Expense>, olds: seq<Expense>)
    ensures IsSubsequence(Diff(news, olds), news)
  {
    FilterIsSubsequence(news, NewerThan(olds));
  }

  predicate UniqueIds(xs: seq<Expense>) {
    forall i, j :: 0 <= i < j < |xs| ==> xs[i].id != xs[j].id
  }

  lemma {:induction false} LastByIdOfUnique(xs: seq<Expense>, k: nat)
    requires UniqueIds(xs) && k < |xs|
    ensures LastById(xs, xs[k].id) == Some(xs[k])
    decreases |xs|
  {
    if k < |xs| - 1 {
      LastByIdOfUnique(xs[..|xs| - 1], k);
    }
  }

  /** Equal timestamps are not newer: a collection with unique ids has an empty delta
      against itself. */
  lemma DiffWithItselfIsEmpty(xs: seq<Expense>)
    requires UniqueIds(xs)
    ensures Diff(xs, xs) == []
  {
    forall k | 0 <= k < |xs|
      ensures !NewerThan(xs)(xs[k])
    {
      LastByIdOfUnique(xs, k);
    }
    FilterKeepsNone(xs, NewerThan(xs));
  }

  /** Against an empty collection everything is new. */
  lemma DiffAgainstEmpty(xs: seq<Expense>)
    ensures Diff(xs, []) == xs
  {
    FilterKeepsAll(xs, NewerThan([]));
  }

  /** With duplicate ids in `olds`, only the last copy decides. */
  lemma DiffUsesLastCopy(e: Expense, olds: seq<Expense>, o: Expense)
    requires o.id == e.id
    ensures IsNewer(e, olds + [o]) <==> e.updatedAt > o.updatedAt
  {
    LastByIdSnoc(olds, o, e.id);
  }

  /** The instant `new Date(String(d))` gives back for a date `d` of instant `t`: `String`
      prints no milliseconds, so only the whole seconds survive (rounded down, also
      before 1970). */
  function WholeSeconds(t: int): (s: int)
    ensures s <= t < s + 1000 && s % 1000 == 0
    ensures t % 1000 == 0 <==> s == t
  {
    t - t % 1000
  }

  /** A ledger row that comes back with its `updatedAt` cut to whole seconds looks older
      than the client's exact copy: the client's copy is sent for upsert again, and the
      server has nothing to send back. */
  lemma TruncatedCopyIsResent(e: Expense)
    requires e.updatedAt % 1000 != 0
    ensures var loaded := e.(updatedAt := WholeSeconds(e.updatedAt));
      Diff([e], [loaded]) == [e] && Diff([loaded], [e]) == []
  {
    var loaded := e.(updatedAt := WholeSeconds(e.updatedAt));
    assert LastById([loaded], e.id) == Some(loaded);
    assert LastById([e], e.id) == Some(e);
    FilterOne(e, NewerThan([loaded]));
    FilterOne(loaded, NewerThan([e]));
  }

  // ---------------------------------------------------------------------------
  // Monthly expenses
  // ---------------------------------------------------------------------------

  predicate IsMonthly(e: Expense) {
    e.periodicity == "monthly"
  }

  /** The filter of `findRecurringExpensesToDuplicate`: monthly and dated no later than today. */
  predicate IsPastMonthly(e: Expense, today: CalDate) {
    IsMonthly(e) && NotAfter(e.date, today)
  }

  /** The anchor: the last element of the past monthly records stably sorted by date,
      that is, the latest one, and among equally dated ones the last in input order. */
  function LatestPastMonthly(xs: seq<Expense>, today: CalDate): (r: Option<Expense>)
    ensures r.None? <==> forall k :: 0 <= k < |xs| ==> !IsPastMonthly(xs[k], today)
    ensures r.Some? ==> r.value in xs && IsPastMonthly(r.value, today)
    ensures r.Some? ==> forall k :: 0 <= k < |xs| && IsPastMonthly(xs[k], today) ==> NotAfter(xs[k].date, r.value.date)
    decreases |xs|
  {
    if xs == [] then None
    else
      var init, last := xs[..|xs| - 1], xs[|xs| - 1];
      var rest := LatestPastMonthly(init, today);
      assert xs == init + [last];
      if IsPastMonthly(last, today) && (rest.None? || NotAfter(rest.value.date, last.date)) then
        assert forall k :: 0 <= k < |xs| && IsPastMonthly(xs[k], today) ==> NotAfter(xs[k].date, last.date) by {
          forall k | 0 <= k < |xs| && IsPastMonthly(xs[k], today)
            ensures NotAfter(xs[k].date, last.date)
          {
            if k < |init| {
              assert init[k] == xs[k];
              NotAfterTransitive(xs[k].date, rest.value.date, last.date);
            } else {
              NotAfterTotal(last.date, last.date);
            }
          }
        }
        Some(last)
      else
        assert rest.Some? && IsPastMonthly(last, today) ==> NotAfter(last.date, rest.value.date) by {
          if rest.Some? {
            NotAfterTotal(last.date, rest.value.date);
          }
        }
        rest
  }

  /** A template: a live monthly record in the given month. */
  function InBasket(year: int, month: int): Expense -> bool {
    (e: Expense) => e.date.year == year && e.date.month == month && IsMonthly(e) && !e.deleted
  }

  /** `findRecurringExpensesToDuplicate(expenses)` with `today` passed in. */
  function FindRecurringExpensesToDuplicate(xs: seq<Expense>, today: CalDate): (r: seq<Expense>)
    ensures forall k :: 0 <= k < |r| ==> r[k] in xs && IsMonthly(r[k]) && !r[k].deleted
  {
    match LatestPastMonthly(xs, today)
    case None => []
    case Some(anchor) =>
      if IsSameMonth(anchor.date, today) then []
      else
        var r := Filter(xs, InBasket(anchor.date.year, anchor.date.month));
        FilterAllSatisfy(xs, InBasket(anchor.date.year, anchor.date.month));
        assert forall k :: 0 <= k < |r| ==> r[k] in xs by {
          forall k | 0 <= k < |r| ensures r[k] in xs {
            FilterMembership(xs, InBasket(anchor.date.year, anchor.date.month), r[k]);
          }
        }
        r
  }

  /** Nothing is generated exactly when there is no past monthly record, when the anchor
      (deleted or not) is in today's month, or when its month holds no live monthly record. */
  lemma FindIsEmptyIff(xs: seq<Expense>, today: CalDate)
    ensures FindRecurringExpensesToDuplicate(xs, today) == [] <==>
      match LatestPastMonthly(xs, today)
      case None => true
      case Some(anchor) =>
        IsSameMonth(anchor.date, today)
        || forall k :: 0 <= k < |xs| ==> !InBasket(anchor.date.year, anchor.date.month)(xs[k])
  {
    match LatestPastMonthly(xs, today)
    case None =>
    case Some(anchor) =>
      if !IsSameMonth(anchor.date, today) {
        var p := InBasket(anchor.date.year, anchor.date.month);
        if forall k :: 0 <= k < |xs| ==> !p(xs[k]) {
          FilterKeepsNone(xs, p);
        } else {
          var k :| 0 <= k < |xs| && p(xs[k]);
          FilterMembership(xs, p, xs[k]);
        }
      }
  }

  /** Otherwise the templates are exactly the live monthly records of the anchor's month,
      in input order. */
  lemma FindTemplates(xs: seq<Expense>, today: CalDate, anchor: Expense)
    requires LatestPastMonthly(xs, today) == Some(anchor)
    requires !IsSameMonth(anchor.date, today)
    ensures forall e :: e in FindRecurringExpensesToDuplicate(xs, today) <==>
      e in xs && e.date.year == anchor.date.year && e.date.month == anchor.date.month
      && IsMonthly(e) && !e.deleted
    ensures IsSubsequence(FindRecurringExpensesToDuplicate(xs, today), xs)
  {
    var p := InBasket(anchor.date.year, anchor.date.month);
    forall e ensures e in Filter(xs, p) <==> e in xs && p(e) {
      FilterMembership(xs, p, e);
    }
    FilterIsSubsequence(xs, p);
  }

  /** Once a past monthly record in today's month exists, nothing more is generated. */
  lemma FindIsEmptyOnceCurrent(xs: seq<Expense>, today: CalDate, k: nat)
    requires k < |xs| && IsPastMonthly(xs[k], today) && IsSameMonth(xs[k].date, today)
    ensures FindRecurringExpensesToDuplicate(xs, today) == []
  {
    var anchor := LatestPastMonthly(xs, today).value;
    NotAfterWithinMonth(xs[k].date, anchor.date, today);
  }

  /** A new occurrence: the template with a fresh id, its date one month later,
      unchecked, and stamped with the current instant. */
  function Occurrence(template: Expense, id: string, now: int): Expense {
    template.(id := id, date := AddOneMonth(template.date), checked := false, updatedAt := now)
  }

  /** `generateNewMonthlyExpenses(expenses)` with `today` and `now` passed in; `ids(k)` is
      the id that the k-th call of `guid()` returns. */
  function GenerateNewMonthlyExpenses(xs: seq<Expense>, today: CalDate, now: int, ids: nat -> string): (r: seq<Expense>)
    ensures var ts := FindRecurringExpensesToDuplicate(xs, today);
      && |r| == |ts|
      && forall k :: 0 <= k < |r| ==> OccurrenceOf(r[k], ts[k], ids(k), now)
  {
    var ts := FindRecurringExpensesToDuplicate(xs, today);
    var r := seq(|ts|, k requires 0 <= k < |ts| => Occurrence(ts[k], ids(k), now));
    assert forall k :: 0 <= k < |r| ==> OccurrenceOf(r[k], ts[k], ids(k), now) by {
      forall k | 0 <= k < |r|
        ensures OccurrenceOf(r[k], ts[k], ids(k), now)
      {
        assert r[k] == Occurrence(ts[k], ids(k), now);
      }
    }
    r
  }

  /** `g` is the occurrence of `template` with this id at this instant. */
  predicate OccurrenceOf(g: Expense, template: Expense, id: string, now: int) {
    && g.(id := template.id, date := template.date, checked := template.checked, updatedAt := template.updatedAt) == template
    && g.id == id && g.date == AddOneMonth(template.date) && !g.checked && g.updatedAt == now
  }

  /** Every occurrence is a live monthly record dated after the anchor's month: in the
      month that follows it, or, when the day overflows, in the month after that. */
  lemma GeneratedFollowAnchor(xs: seq<Expense>, today: CalDate, now: int, ids: nat -> string, anchor: Expense)
    requires LatestPastMonthly(xs, today) == Some(anchor)
    ensures forall g :: g in GenerateNewMonthlyExpenses(xs, today, now, ids) ==>
      && IsMonthly(g) && !g.deleted && !g.checked
      && !IsSameMonth(g.date, anchor.date)
      && var (y, m) := NextMonth(anchor.date.year, anchor.date.month);
         (g.date.year, g.date.month) == (y, m) || (g.date.year, g.date.month) == NextMonth(y, m)
  {
    var ts := FindRecurringExpensesToDuplicate(xs, today);
    var gs := GenerateNewMonthlyExpenses(xs, today, now, ids);
    forall g | g in gs
      ensures IsMonthly(g) && !g.deleted && !g.checked && !IsSameMonth(g.date, anchor.date)
      ensures var (y, m) := NextMonth(anchor.date.year, anchor.date.month);
         (g.date.year, g.date.month) == (y, m) || (g.date.year, g.date.month) == NextMonth(y, m)
    {
      var k :| 0 <= k < |gs| && gs[k] == g;
      TemplateInAnchorMonth(xs, today, anchor, k);
      OccurrenceFollows(g, ts[k], ids(k), now, anchor.date);
    }
  }

  /** Each template is a live monthly record of the anchor's month. */
  lemma TemplateInAnchorMonth(xs: seq<Expense>, today: CalDate, anchor: Expense, k: nat)
    requires LatestPastMonthly(xs, today) == Some(anchor)
    requires k < |FindRecurringExpensesToDuplicate(xs, today)|
    ensures var t := FindRecurringExpensesToDuplicate(xs, today)[k];
      t.date.year == anchor.date.year && t.date.month == anchor.date.month && IsMonthly(t) && !t.deleted
  {
    FilterAllSatisfy(xs, InBasket(anchor.date.year, anchor.date.month));
  }

  /** The occurrence of a live monthly template of month `a` is live, monthly, unchecked,
      and dated one or two months after `a`. */
  lemma OccurrenceFollows(g: Expense, t: Expense, id: string, now: int, a: CalDate)
    requires OccurrenceOf(g, t, id, now)
    requires t.date.year == a.year && t.date.month == a.month && IsMonthly(t) && !t.deleted
    ensures IsMonthly(g) && !g.deleted && !g.checked && !IsSameMonth(g.date, a)
    ensures var (y, m) := NextMonth(a.year, a.month);
      (g.date.year, g.date.month) == (y, m) || (g.date.year, g.date.month) == NextMonth(y, m)
  {
    AddOneMonthLeavesMonth(t.date);
  }

  /** Running the generator again on the ledger extended with its output, on the same day,
      yields nothing once one occurrence falls in today's month on or before today. */
  lemma RegenerationIsEmpty(xs: seq<Expense>, today: CalDate, now: int, ids: nat -> string, k: nat)
    requires var gs := GenerateNewMonthlyExpenses(xs, today, now, ids);
      k < |gs| && NotAfter(gs[k].date, today) && IsSameMonth(gs[k].date, today)
    ensures FindRecurringExpensesToDuplicate(xs + GenerateNewMonthlyExpenses(xs, today, now, ids), today) == []
  {
    var gs := GenerateNewMonthlyExpenses(xs, today, now, ids);
    var ts := FindRecurringExpensesToDuplicate(xs, today);
    assert IsMonthly(gs[k]) by {
      assert ts[k] == ts[k];
    }
    var ys := xs + gs;
    assert ys[|xs| + k] == gs[k];
    FindIsEmptyOnceCurrent(ys, today, |xs| + k);
  }

  /** The only past monthly record of a ledger is its anchor. */
  lemma SingleMonthlyAnchor(xs: seq<Expense>, today: CalDate, i: nat)
    requires i < |xs| && IsPastMonthly(xs[i], today)
    requires forall k :: 0 <= k < |xs| && k != i ==> !IsPastMonthly(xs[k], today)
    ensures LatestPastMonthly(xs, today) == Some(xs[i])
  {
    var anchor := LatestPastMonthly(xs, today).value;
    var k :| 0 <= k < |xs| && xs[k] == anchor;
    assert k == i;
  }

  /** A ledger whose only monthly record is live and dated before today's month yields
      exactly one occurrence of it. */
  lemma SingleMonthlyRecord(xs: seq<Expense>, today: CalDate, now: int, ids: nat -> string, i: nat)
    requires i < |xs| && IsMonthly(xs[i]) && !xs[i].deleted
    requires NotAfter(xs[i].date, today) && !IsSameMonth(xs[i].date, today)
    requires forall k :: 0 <= k < |xs| && k != i ==> !IsMonthly(xs[k])
    ensures GenerateNewMonthlyExpenses(xs, today, now, ids) == [Occurrence(xs[i], ids(0), now)]
  {
    SingleMonthlyAnchor(xs, today, i);
    FilterSingle(xs, InBasket(xs[i].date.year, xs[i].date.month), i);
    assert FindRecurringExpensesToDuplicate(xs, today) == [xs[i]];
  }

  /** As written, an occurrence dated after today is no anchor, so a later sync in the same
      month, on the ledger that already holds it, generates the template's occurrence again. */
  lemma PendingOccurrenceIsRegenerated(xs: seq<Expense>, today: CalDate, now: int, ids: nat -> string,
                                       later: int, moreIds: nat -> string, i: nat)
    requires i < |xs| && IsMonthly(xs[i]) && !xs[i].deleted
    requires NotAfter(xs[i].date, today) && !IsSameMonth(xs[i].date, today)
    requires forall k :: 0 <= k < |xs| && k != i ==> !IsMonthly(xs[k])
    requires !NotAfter(AddOneMonth(xs[i].date), today)
    ensures GenerateNewMonthlyExpenses(xs, today, now, ids) == [Occurrence(xs[i], ids(0), now)]
    ensures GenerateNewMonthlyExpenses(xs + GenerateNewMonthlyExpenses(xs, today, now, ids), today, later, moreIds)
      == [Occurrence(xs[i], moreIds(0), later)]
  {
    SingleMonthlyRecord(xs, today, now, ids, i);
    var g := Occurrence(xs[i], ids(0), now);
    var ys := xs + [g];
    AddOneMonthLeavesMonth(xs[i].date);
    assert ys[i] == xs[i] && ys[|xs|] == g;
    assert forall k :: 0 <= k < |ys| && k != i ==> !IsPastMonthly(ys[k], today) by {
      forall k | 0 <= k < |ys| && k != i
        ensures !IsPastMonthly(ys[k], today)
      {
        if k < |xs| {
          assert ys[k] == xs[k];
        }
      }
    }
    SingleMonthlyAnchor(ys, today, i);
    var p := InBasket(xs[i].date.year, xs[i].date.month);
    assert forall k :: 0 <= k < |ys| && k != i ==> !p(ys[k]) by {
      forall k | 0 <= k < |ys| && k != i
        ensures !p(ys[k])
      {
        if k < |xs| {
          assert ys[k] == xs[k];
        }
      }
    }
    FilterSingle(ys, p, i);
    assert FindRecurringExpensesToDuplicate(ys, today) == [xs[i]];
  }

  /** A rent dated 20 September 2026, synced on 11 October: the occurrence of 20 October is
      generated on that sync and, with a new id, on the next one. */
  lemma PendingOccurrenceExample(now: int, ids: nat -> string, later: int, moreIds: nat -> string)
    ensures var rent := Expense("r1", Date(2026, 8, 20, 0, 0, 0), 800, "home", "rent", "monthly", true, false, 0);
      var today := Date(2026, 9, 11, 12, 0, 0);
      var first := GenerateNewMonthlyExpenses([rent], today, now, ids);
      && first == [Occurrence(rent, ids(0), now)]
      && GenerateNewMonthlyExpenses([rent] + first, today, later, moreIds) == [Occurrence(rent, moreIds(0), later)]
      && Occurrence(rent, moreIds(0), later).date == Date(2026, 9, 20, 0, 0, 0)
  {
    var rent := Expense("r1", Date(2026, 8, 20, 0, 0, 0), 800, "home", "rent", "monthly", true, false, 0);
    var today := Date(2026, 9, 11, 12, 0, 0);
    PendingOccurrenceIsRegenerated([rent], today, now, ids, later, moreIds, 0);
  }
}
