/** The `/expenses/sync` handler of index.ts: reconcile the client's collection with the
    ledger in both directions, add the month's recurring expenses, write only when the
    server has something new, and answer with what the client lacks. */
module Server {
  import opened Wrappers
  import opened Dates
  import opened Expenses
  import opened Db
  import opened Utils

  /** The JSON body `{ expenses: [...] }`, or the 500 reply carrying the error. */
  datatype Response = Synced(expenses: seq<Expense>) | ServerError(error: DbError)

  /** How the JavaScript runtime and DuckDB turn values into text and back. */
  datatype Runtime = Runtime(
    parsers: Parsers,
    printDate: CalDate -> string,
    printInstant: int -> string,
    dateText: CalDate -> string,
    interpret: string -> Option<Expense>)

  /** The id of the k-th `guid()` call when its j-th `Math.random()` returns `random(k)(j)`. */
  function GuidIds(random: nat -> nat -> UnitFraction): nat -> string {
    (k: nat) => GuidChars(random(k))
  }

  /** The response and the files after one sync, for the files before. */
  function SyncSpec(files: map<string, seq<Expense>>, file: string, body: seq<RawRecord>, rt: Runtime,
                    today: CalDate, now: int, random: nat -> nat -> UnitFraction, faults: set<Step>)
    : (Response, map<string, seq<Expense>>)
  {
    match LoadResult(files, file, rt.parsers, rt.printDate, rt.printInstant)
    case Failure(e) => (ServerError(e), files)
    case Success(known) =>
      var user := FromUserExpenses(body, rt.parsers);
      var forServer := Diff(user, known);
      var forUser := Diff(known, user);
      var generated := GenerateNewMonthlyExpenses(known, today, now, GuidIds(random));
      if |forServer| > 0 || |generated| > 0 then
        var (outcome, after) := MutateSpec(files, file, UpsertStatements(forServer + generated, rt.dateText), rt.interpret, faults);
        if outcome.Fail? then (ServerError(outcome.error), after) else (Synced(forUser + generated), after)
      else (Synced(forUser + generated), files)
  }

  /** The handler body, from decoding the client's expenses to the reply. */
  method Sync(db: DB, body: seq<RawRecord>, rt: Runtime, today: CalDate, now: int,
              random: nat -> nat -> UnitFraction, faults: set<Step>) returns (response: Response)
    modifies db.fs
    ensures (response, db.fs.files) == SyncSpec(old(db.fs.files), db.file, body, rt, today, now, random, faults)
  {
    var userExpenses := FromUserExpenses(body, rt.parsers);
    var knownExpenses := db.LoadExpenses(rt.parsers, rt.printDate, rt.printInstant);
    if knownExpenses.Failure? {
      return ServerError(knownExpenses.error);
    }
    var known := knownExpenses.value;
    var expensesToUpsertForServer := DiffExpenses(userExpenses, known);
    var expensesToUpsertForUser := DiffExpenses(known, userExpenses);
    var monthlyExpensesToInsert := GenerateNewMonthlyExpenses(known, today, now, GuidIds(random));
    if |expensesToUpsertForServer| > 0 || |monthlyExpensesToInsert| > 0 {
      var expensesToUpsert := expensesToUpsertForServer + monthlyExpensesToInsert;
      var outcome := db.UpsertExpenses(expensesToUpsert, rt.dateText, rt.interpret, faults);
      if outcome.Fail? {
        return ServerError(outcome.error);
      }
    }
    response := Synced(expensesToUpsertForUser + monthlyExpensesToInsert);
  }

  /** A missing ledger yields an error reply and no write. */
  lemma SyncLoadFailure(files: map<string, seq<Expense>>, file: string, body: seq<RawRecord>, rt: Runtime,
                        today: CalDate, now: int, random: nat -> nat -> UnitFraction, faults: set<Step>)
    requires file !in files
    ensures SyncSpec(files, file, body, rt, today, now, random, faults) == (ServerError(QueryFailed(file)), files)
  {
  }

  /** With no server delta and nothing generated, no write is attempted and the reply is
      the client delta. */
  lemma SyncWithoutNewsDoesNotWrite(files: map<string, seq<Expense>>, file: string, body: seq<RawRecord>, rt: Runtime,
                                    today: CalDate, now: int, random: nat -> nat -> UnitFraction, faults: set<Step>)
    requires file in files
    requires var known := LoadResult(files, file, rt.parsers, rt.printDate, rt.printInstant).value;
      Diff(FromUserExpenses(body, rt.parsers), known) == []
      && GenerateNewMonthlyExpenses(known, today, now, GuidIds(random)) == []
    ensures var known := LoadResult(files, file, rt.parsers, rt.printDate, rt.printInstant).value;
      SyncSpec(files, file, body, rt, today, now, random, faults)
        == (Synced(Diff(known, FromUserExpenses(body, rt.parsers))), files)
  {
    var known := LoadResult(files, file, rt.parsers, rt.printDate, rt.printInstant).value;
    assert Diff(known, FromUserExpenses(body, rt.parsers)) + [] == Diff(known, FromUserExpenses(body, rt.parsers));
  }

  /** A successful reply is the client delta followed by the occurrences generated from
      the server's ledger. */
  lemma SyncReply(files: map<string, seq<Expense>>, file: string, body: seq<RawRecord>, rt: Runtime,
                  today: CalDate, now: int, random: nat -> nat -> UnitFraction, faults: set<Step>)
    requires SyncSpec(files, file, body, rt, today, now, random, faults).0.Synced?
    ensures file in files
    ensures var known := LoadResult(files, file, rt.parsers, rt.printDate, rt.printInstant).value;
      SyncSpec(files, file, body, rt, today, now, random, faults).0.expenses
        == Diff(known, FromUserExpenses(body, rt.parsers)) + GenerateNewMonthlyExpenses(known, today, now, GuidIds(random))
  {
  }

  /** When there is something new, the batch written is the server delta followed by the
      generated occurrences; if it succeeds and DuckDB reads its statements back, the
      ledger holds the old rows upserted with it. */
  lemma SyncWritesDeltaThenGenerated(files: map<string, seq<Expense>>, file: string, body: seq<RawRecord>, rt: Runtime,
                                     today: CalDate, now: int, random: nat -> nat -> UnitFraction, faults: set<Step>)
    requires file in files
    requires var known := LoadResult(files, file, rt.parsers, rt.printDate, rt.printInstant).value;
      var batch := Diff(FromUserExpenses(body, rt.parsers), known) + GenerateNewMonthlyExpenses(known, today, now, GuidIds(random));
      |batch| > 0 && ReadsBack(rt.interpret, rt.dateText, batch)
    requires SyncSpec(files, file, body, rt, today, now, random, faults).0.Synced?
    ensures var known := LoadResult(files, file, rt.parsers, rt.printDate, rt.printInstant).value;
      var batch := Diff(FromUserExpenses(body, rt.parsers), known) + GenerateNewMonthlyExpenses(known, today, now, GuidIds(random));
      var after := SyncSpec(files, file, body, rt, today, now, random, faults).1;
      file in after && after[file] == Staging.Materialize(files[file], batch)
  {
    var known := LoadResult(files, file, rt.parsers, rt.printDate, rt.printInstant).value;
    var batch := Diff(FromUserExpenses(body, rt.parsers), known) + GenerateNewMonthlyExpenses(known, today, now, GuidIds(random));
    SuccessfulUpsertLedger(files, file, batch, rt.dateText, rt.interpret, faults);
  }

  /** A failed write yields an error reply, and the ledger keeps its rows unless the
      restore copy fails as well, which leaves no ledger. */
  lemma SyncFailureKeepsLedger(files: map<string, seq<Expense>>, file: string, body: seq<RawRecord>, rt: Runtime,
                               today: CalDate, now: int, random: nat -> nat -> UnitFraction, faults: set<Step>)
    requires file in files
    requires SyncSpec(files, file, body, rt, today, now, random, faults).0.ServerError?
    ensures var after := SyncSpec(files, file, body, rt, today, now, random, faults).1;
      && (BackupStep in faults || RestoreStep !in faults ==> file in after && after[file] == files[file])
      && (BackupStep !in faults && RestoreStep in faults ==> file !in after)
  {
    var known := LoadResult(files, file, rt.parsers, rt.printDate, rt.printInstant).value;
    var user := FromUserExpenses(body, rt.parsers);
    var generated := GenerateNewMonthlyExpenses(known, today, now, GuidIds(random));
    var statements := UpsertStatements(Diff(user, known) + generated, rt.dateText);
    FailureKeepsLedger(files, file, statements, rt.interpret, faults);
  }

  /** A client that sends exactly the server's ledger (unique ids, encoded as the client
      does) gets only the generated occurrences back, and only they can be written. */
  lemma SyncOfServerCollection(files: map<string, seq<Expense>>, file: string, rt: Runtime,
                               today: CalDate, now: int, random: nat -> nat -> UnitFraction, faults: set<Step>)
    requires file in files && UniqueIds(files[file])
    requires forall k :: 0 <= k < |files[file]| ==> DatesReadBack(files[file][k], rt.parsers, rt.printDate, rt.printInstant)
    ensures var rows := files[file];
      var generated := GenerateNewMonthlyExpenses(rows, today, now, GuidIds(random));
      var body := DbRecords(rows, rt.printDate, rt.printInstant);
      SyncSpec(files, file, body, rt, today, now, random, faults) ==
        if generated == [] then (Synced([]), files)
        else
          var (outcome, after) := MutateSpec(files, file, UpsertStatements(generated, rt.dateText), rt.interpret, faults);
          (if outcome.Fail? then ServerError(outcome.error) else Synced(generated), after)
  {
    var rows := files[file];
    var body := DbRecords(rows, rt.printDate, rt.printInstant);
    LoadReadsLedger(files, file, rt.parsers, rt.printDate, rt.printInstant);
    FromUserExpensesRoundTrip(rows, rt.parsers, rt.printDate, rt.printInstant);
    assert FromUserExpenses(body, rt.parsers) == rows;
    DiffWithItselfIsEmpty(rows);
    var generated := GenerateNewMonthlyExpenses(rows, today, now, GuidIds(random));
    assert [] + generated == generated;
  }

  /** Every generated occurrence carries an id of the `guid` shape. */
  lemma SyncGeneratedIds(known: seq<Expense>, today: CalDate, now: int, random: nat -> nat -> UnitFraction)
    ensures forall g :: g in GenerateNewMonthlyExpenses(known, today, now, GuidIds(random)) ==>
      IsGuidShaped(g.id) && IsLetter(g.id[0])
  {
    var gs := GenerateNewMonthlyExpenses(known, today, now, GuidIds(random));
    forall g | g in gs
      ensures IsGuidShaped(g.id) && IsLetter(g.id[0])
    {
      var k :| 0 <= k < |gs| && gs[k] == g;
      GuidShape(random(k));
    }
  }
}
