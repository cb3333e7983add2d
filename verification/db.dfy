/** The ledger store of lib/db.ts: a CSV file read through DuckDB's `read_csv`, and
    rewritten by a batch that stages the file in a table keyed by `_id`, applies
    `INSERT OR REPLACE` statements and copies the table out, guarded by a backup. */
module Db {
  import opened Wrappers
  import opened Strings
  import opened Dates
  import opened Sequences
  import opened Expenses
  import opened Staging

  const File: string := "expenses.csv"
  const FileDev: string := "expenses-dev.csv"
  const TsFormat: string := "%Y-%m-%dT%H:%M:%S.%gZ"

  /** The constructor's choice of ledger file. */
  function LedgerFile(dev: bool): (f: string)
    ensures dev ==> f == "expenses-dev.csv"
    ensures !dev ==> f == "expenses.csv"
  {
    if dev then FileDev else File
  }

  function TmpPath(file: string): string {
    file + ".tmp.csv"
  }

  function BackupPath(file: string): string {
    file + ".backup.csv"
  }

  /** The ledger, its temporary copy and its backup are three different files. */
  lemma PathsAreDistinct(file: string)
    ensures file != TmpPath(file) && file != BackupPath(file) && TmpPath(file) != BackupPath(file)
  {
    assert |TmpPath(file)| == |file| + 8 && |BackupPath(file)| == |file| + 11;
  }

  // ---------------------------------------------------------------------------
  // Columns and values
  // ---------------------------------------------------------------------------

  datatype SqlType = SqlVarchar | SqlDate | SqlDouble | SqlBoolean | SqlTimestamp

  function TypeName(t: SqlType): string {
    match t
    case SqlVarchar => "VARCHAR"
    case SqlDate => "DATE"
    case SqlDouble => "DOUBLE"
    case SqlBoolean => "BOOLEAN"
    case SqlTimestamp => "TIMESTAMP"
  }

  datatype Column = Column(name: string, sqlType: SqlType)

  /** The ten columns of the ledger, in file order; the first is the primary key. */
  const Columns: seq<Column> := [
    Column("_id", SqlVarchar),
    Column("date", SqlDate),
    Column("amount", SqlDouble),
    Column("category", SqlVarchar),
    Column("label", SqlVarchar),
    Column("periodicity", SqlVarchar),
    Column("checked", SqlBoolean),
    Column("deleted", SqlBoolean),
    Column("exception", SqlBoolean),
    Column("updatedAt", SqlTimestamp)]

  function CsvEntry(c: Column): string {
    "'" + c.name + "': '" + TypeName(c.sqlType) + "'"
  }

  function TableEntry(c: Column, primaryKey: bool): string {
    c.name + " " + TypeName(c.sqlType) + (if primaryKey then " PRIMARY KEY" else "")
  }

  /** The entries of the `columns=` struct of `read_csv`, as `generateColumnsForCSV` lists them. */
  const CsvColumns: seq<string> := [
    "'_id': 'VARCHAR'", "'date': 'DATE'", "'amount': 'DOUBLE'",
    "'category': 'VARCHAR'", "'label': 'VARCHAR'", "'periodicity': 'VARCHAR'",
    "'checked': 'BOOLEAN'", "'deleted': 'BOOLEAN'", "'exception': 'BOOLEAN'",
    "'updatedAt': 'TIMESTAMP'"]

  /** The column definitions of the staging table, as `generateColumnsForTable` lists them. */
  const TableColumns: seq<string> := [
    "_id VARCHAR PRIMARY KEY", "date DATE", "amount DOUBLE", "category VARCHAR",
    "label VARCHAR", "periodicity VARCHAR", "checked BOOLEAN", "deleted BOOLEAN",
    "exception BOOLEAN", "updatedAt TIMESTAMP"]

  /** `generateColumnsForCSV`: the ten columns with their types, in order, as a struct. */
  function ColumnsForCSV(): (r: string)
    ensures r == "{" + Join(seq(|Columns|, k requires 0 <= k < |Columns| => CsvEntry(Columns[k])), ", ") + "}"
  {
    CsvColumnsFromColumns();
    "{" + Join(CsvColumns, ", ") + "}"
  }

  /** `generateColumnsForTable`: the ten columns with their types, in order, keyed by `_id`. */
  function ColumnsForTable(): (r: string)
    ensures r == Join(seq(|Columns|, k requires 0 <= k < |Columns| => TableEntry(Columns[k], k == 0)), ", ")
  {
    TableColumnsFromColumns();
    Join(TableColumns, ", ")
  }

  lemma CsvColumnsFromColumns()
    ensures seq(|Columns|, k requires 0 <= k < |Columns| => CsvEntry(Columns[k])) == CsvColumns
  {
    ColumnTextsFollowColumns();
  }

  lemma TableColumnsFromColumns()
    ensures seq(|Columns|, k requires 0 <= k < |Columns| => TableEntry(Columns[k], k == 0)) == TableColumns
  {
    ColumnTextsFollowColumns();
  }

  /** Both lists name the ten columns in the same order with the same types, and only
      `_id` is declared the primary key. */
  lemma ColumnTextsFollowColumns()
    ensures |CsvColumns| == |TableColumns| == |Columns|
    ensures forall k :: 0 <= k < |Columns| ==>
      CsvColumns[k] == CsvEntry(Columns[k]) && TableColumns[k] == TableEntry(Columns[k], k == 0)
  {
    forall k | 0 <= k < |Columns|
      ensures CsvColumns[k] == CsvEntry(Columns[k]) && TableColumns[k] == TableEntry(Columns[k], k == 0)
    {
      ColumnTextsAt(k);
    }
  }

  lemma ColumnTextsAt(k: nat)
    requires k < |Columns|
    ensures CsvColumns[k] == CsvEntry(Columns[k]) && TableColumns[k] == TableEntry(Columns[k], k == 0)
  {
    if k == 0 {
      CsvText0();
      TableText0();
    } else if k == 1 {
      CsvText1();
      TableText1();
    } else if k == 2 {
      CsvText2();
      TableText2();
    } else if k == 3 {
      CsvText3();
      TableText3();
    } else if k == 4 {
      CsvText4();
      TableText4();
    } else if k == 5 {
      CsvText5();
      TableText5();
    } else if k == 6 {
      CsvText6();
      TableText6();
    } else if k == 7 {
      CsvText7();
      TableText7();
    } else if k == 8 {
      CsvText8();
      TableText8();
    } else {
      CsvText9();
      TableText9();
    }
  }

  // One lemma per literal entry: each compares a single entry with its text, so that
  // `ColumnTextsAt` never has the solver compare whole lists of string literals at once.

  lemma CsvText0()
    ensures CsvEntry(Column("_id", SqlVarchar)) == "'_id': 'VARCHAR'"
  {
  }

  lemma TableText0()
    ensures TableEntry(Column("_id", SqlVarchar), true) == "_id VARCHAR PRIMARY KEY"
  {
  }

  lemma CsvText1()
    ensures CsvEntry(Column("date", SqlDate)) == "'date': 'DATE'"
  {
  }

  lemma TableText1()
    ensures TableEntry(Column("date", SqlDate), false) == "date DATE"
  {
  }

  lemma CsvText2()
    ensures CsvEntry(Column("amount", SqlDouble)) == "'amount': 'DOUBLE'"
  {
  }

  lemma TableText2()
    ensures TableEntry(Column("amount", SqlDouble), false) == "amount DOUBLE"
  {
  }

  lemma CsvText3()
    ensures CsvEntry(Column("category", SqlVarchar)) == "'category': 'VARCHAR'"
  {
  }

  lemma TableText3()
    ensures TableEntry(Column("category", SqlVarchar), false) == "category VARCHAR"
  {
  }

  lemma CsvText4()
    ensures CsvEntry(Column("label", SqlVarchar)) == "'label': 'VARCHAR'"
  {
  }

  lemma TableText4()
    ensures TableEntry(Column("label", SqlVarchar), false) == "label VARCHAR"
  {
  }

  lemma CsvText5()
    ensures CsvEntry(Column("periodicity", SqlVarchar)) == "'periodicity': 'VARCHAR'"
  {
    assert "'" + "periodicity" == "'periodicity";
    assert "'periodicity" + "': '" == "'periodicity': '";
    assert "'periodicity': '" + "VARCHAR" + "'" == "'periodicity': 'VARCHAR'";
  }

  lemma TableText5()
    ensures TableEntry(Column("periodicity", SqlVarchar), false) == "periodicity VARCHAR"
  {
  }

  lemma CsvText6()
    ensures CsvEntry(Column("checked", SqlBoolean)) == "'checked': 'BOOLEAN'"
  {
  }

  lemma TableText6()
    ensures TableEntry(Column("checked", SqlBoolean), false) == "checked BOOLEAN"
  {
  }

  lemma CsvText7()
    ensures CsvEntry(Column("deleted", SqlBoolean)) == "'deleted': 'BOOLEAN'"
  {
  }

  lemma TableText7()
    ensures TableEntry(Column("deleted", SqlBoolean), false) == "deleted BOOLEAN"
  {
  }

  lemma CsvText8()
    ensures CsvEntry(Column("exception", SqlBoolean)) == "'exception': 'BOOLEAN'"
  {
  }

  lemma TableText8()
    ensures TableEntry(Column("exception", SqlBoolean), false) == "exception BOOLEAN"
  {
  }

  lemma CsvText9()
    ensures CsvEntry(Column("updatedAt", SqlTimestamp)) == "'updatedAt': 'TIMESTAMP'"
  {
  }

  lemma TableText9()
    ensures TableEntry(Column("updatedAt", SqlTimestamp), false) == "updatedAt TIMESTAMP"
  {
  }

  function Quote(s: string): string {
    "'" + s + "'"
  }

  predicate Quoted(v: string) {
    |v| >= 2 && v[0] == '\'' && v[|v| - 1] == '\''
  }

  predicate IsIntegerText(v: string) {
    var digits := if v != [] && v[0] == '-' then v[1..] else v;
    digits != [] && forall k :: 0 <= k < |digits| ==> IsDigit(digits[k])
  }

  /** The shape of a SQL literal that the column's type accepts. */
  predicate Fits(t: SqlType, v: string) {
    match t
    case SqlVarchar => Quoted(v)
    case SqlDate => StartsWith(v, "DATE ") && Quoted(v[5..])
    case SqlDouble => IsIntegerText(v)
    case SqlBoolean => v == "true" || v == "false"
    case SqlTimestamp => StartsWith(v, "epoch_ms(") && EndsWith(v, ")")
  }

  /** The ten values of `generateExpenseValues`, with `exception` standing for whatever
      the expense's `exception` property holds; `dateText` is the date printer the
      source imports as `stringifyDate`. */
  function ValueList(e: Expense, dateText: CalDate -> string, exception: JsValue): (vs: seq<string>)
    ensures |vs| == |Columns|
  {
    FrontValues(e, dateText) + [ToJsString(exception), "epoch_ms(" + IntToString(e.updatedAt) + ")"]
  }

  /** The value written for the column `c`, chosen by the column's name: the property
      of that name, in the literal form its type takes. */
  function FieldLiteral(e: Expense, c: Column, dateText: CalDate -> string, exception: JsValue): string {
    if c.name == "_id" then Quote(e.id)
    else if c.name == "date" then "DATE " + Quote(dateText(e.date))
    else if c.name == "amount" then IntToString(e.amount)
    else if c.name == "category" then Quote(e.category)
    else if c.name == "label" then Quote(e.labelText)
    else if c.name == "periodicity" then Quote(e.periodicity)
    else if c.name == "checked" then BoolToString(e.checked)
    else if c.name == "deleted" then BoolToString(e.deleted)
    else if c.name == "exception" then ToJsString(exception)
    else if c.name == "updatedAt" then "epoch_ms(" + IntToString(e.updatedAt) + ")"
    else ""
  }

  /** The field literals of the ten columns, in column order. */
  function FieldLiterals(e: Expense, dateText: CalDate -> string, exception: JsValue): seq<string> {
    seq(|Columns|, k requires 0 <= k < |Columns| => FieldLiteral(e, Columns[k], dateText, exception))
  }

  /** Value k of the template is the property that column k names. */
  lemma ValueOfColumn(e: Expense, dateText: CalDate -> string, exception: JsValue, k: nat)
    requires k < |Columns|
    ensures ValueList(e, dateText, exception)[k] == FieldLiteral(e, Columns[k], dateText, exception)
  {
    var vs := ValueList(e, dateText, exception);
    if k < 8 {
      assert vs[k] == FrontValues(e, dateText)[k];
    }
  }

  /** The template lists the ten columns' properties in column order. */
  lemma ValuesFollowColumns(e: Expense, dateText: CalDate -> string, exception: JsValue)
    ensures ValueList(e, dateText, exception) == FieldLiterals(e, dateText, exception)
  {
    forall k | 0 <= k < |Columns|
      ensures ValueList(e, dateText, exception)[k] == FieldLiterals(e, dateText, exception)[k]
    {
      ValueOfColumn(e, dateText, exception, k);
    }
  }

  /** The first eight values, which do not depend on `exception`. */
  function FrontValues(e: Expense, dateText: CalDate -> string): (vs: seq<string>)
    ensures |vs| == 8
  {
    [Quote(e.id),
     "DATE " + Quote(dateText(e.date)),
     IntToString(e.amount),
     Quote(e.category),
     Quote(e.labelText),
     Quote(e.periodicity),
     BoolToString(e.checked),
     BoolToString(e.deleted)]
  }

  /** `generateExpenseValues` as written: the `Expense` type has no `exception`
      property, so the ninth value is the text of `undefined`. */
  function ExpenseValuesAsWritten(e: Expense, dateText: CalDate -> string): (r: string)
    ensures r == Join(FieldLiterals(e, dateText, JsUndefined), ", ")
    ensures StartsWith(r, Quote(e.id)) && EndsWith(r, "epoch_ms(" + IntToString(e.updatedAt) + ")")
  {
    ValuesFollowColumns(e, dateText, JsUndefined);
    JoinEnds(ValueList(e, dateText, JsUndefined), ", ");
    Join(ValueList(e, dateText, JsUndefined), ", ")
  }

  /** `generateExpenseValues` with `exception` written as `false`. */
  function ExpenseValues(e: Expense, dateText: CalDate -> string): (r: string)
    ensures r == Join(FieldLiterals(e, dateText, JsBoolean(false)), ", ")
    ensures StartsWith(r, Quote(e.id)) && EndsWith(r, "epoch_ms(" + IntToString(e.updatedAt) + ")")
  {
    ValuesFollowColumns(e, dateText, JsBoolean(false));
    JoinEnds(ValueList(e, dateText, JsBoolean(false)), ", ");
    Join(ValueList(e, dateText, JsBoolean(false)), ", ")
  }

  /** The correction changes the values text in the ninth value only. */
  lemma ValuesDifferOnlyInException(e: Expense, dateText: CalDate -> string)
    ensures var front := Join(FrontValues(e, dateText), ", ");
      var ts := "epoch_ms(" + IntToString(e.updatedAt) + ")";
      && ExpenseValuesAsWritten(e, dateText) == front + ", " + "undefined" + ", " + ts
      && ExpenseValues(e, dateText) == front + ", " + "false" + ", " + ts
  {
    var ts := "epoch_ms(" + IntToString(e.updatedAt) + ")";
    ValuesSplit(FrontValues(e, dateText), "undefined", ts);
    ValuesSplit(FrontValues(e, dateText), "false", ts);
  }

  lemma ValuesSplit(front: seq<string>, ninth: string, tenth: string)
    requires front != []
    ensures Join(front + [ninth, tenth], ", ") == Join(front, ", ") + ", " + ninth + ", " + tenth
  {
    JoinAppend(front, [ninth, tenth], ", ");
    assert [ninth, tenth][1..] == [tenth];
  }

  /** As written, the value for the BOOLEAN column `exception` is `undefined`, which is
      not a boolean literal, whatever the expense. */
  lemma AsWrittenExceptionDoesNotFit(e: Expense, dateText: CalDate -> string)
    ensures Columns[8] == Column("exception", SqlBoolean)
    ensures ValueList(e, dateText, JsUndefined)[8] == "undefined"
    ensures !Fits(Columns[8].sqlType, ValueList(e, dateText, JsUndefined)[8])
  {
  }

  /** With the correction value k is the property column k names, and it has the shape
      that column's type accepts. */
  lemma ValuesFitColumns(e: Expense, dateText: CalDate -> string)
    ensures forall k :: 0 <= k < |Columns| ==>
      && ValueList(e, dateText, JsBoolean(false))[k] == FieldLiteral(e, Columns[k], dateText, JsBoolean(false))
      && Fits(Columns[k].sqlType, ValueList(e, dateText, JsBoolean(false))[k])
  {
    forall k | 0 <= k < |Columns|
      ensures ValueList(e, dateText, JsBoolean(false))[k] == FieldLiteral(e, Columns[k], dateText, JsBoolean(false))
      ensures Fits(Columns[k].sqlType, ValueList(e, dateText, JsBoolean(false))[k])
    {
      ValueOfColumn(e, dateText, JsBoolean(false), k);
      ValueFits(e, dateText, k);
    }
  }

  lemma ValueFits(e: Expense, dateText: CalDate -> string, k: nat)
    requires k < |Columns|
    ensures Fits(Columns[k].sqlType, ValueList(e, dateText, JsBoolean(false))[k])
  {
    var vs := ValueList(e, dateText, JsBoolean(false));
    if k < 8 {
      assert vs[k] == FrontValues(e, dateText)[k];
    }
    if k == 0 {
      QuoteIsQuoted(e.id);
    } else if k == 1 {
      DateValueFits(dateText(e.date));
    } else if k == 2 {
      IntegerTextOf(e.amount);
    } else if k == 3 {
      QuoteIsQuoted(e.category);
    } else if k == 4 {
      QuoteIsQuoted(e.labelText);
    } else if k == 5 {
      QuoteIsQuoted(e.periodicity);
    } else if k == 9 {
      TimestampValueFits(e.updatedAt);
    }
  }

  lemma QuoteIsQuoted(s: string)
    ensures Quoted(Quote(s))
  {
  }

  lemma DateValueFits(text: string)
    ensures Fits(SqlDate, "DATE " + Quote(text))
  {
    assert ("DATE " + Quote(text))[5..] == Quote(text);
    assert ("DATE " + Quote(text))[..5] == "DATE ";
  }

  lemma IntegerTextOf(n: int)
    ensures IsIntegerText(IntToString(n))
  {
    if n < 0 {
      assert IntToString(n)[1..] == NatToString(-n);
    }
  }

  lemma TimestampValueFits(n: int)
    ensures Fits(SqlTimestamp, "epoch_ms(" + IntToString(n) + ")")
  {
    var v := "epoch_ms(" + IntToString(n) + ")";
    assert v[..9] == "epoch_ms(";
    assert v[|v| - 1..] == ")";
  }

  // ---------------------------------------------------------------------------
  // Statements
  // ---------------------------------------------------------------------------

  const InsertPrefix: string := "INSERT OR REPLACE INTO Expenses VALUES ("

  /** The statement `upsertExpenses` writes for one expense. */
  function InsertLine(e: Expense, dateText: CalDate -> string): (line: string)
    ensures StartsWith(line, InsertPrefix) && EndsWith(line, ";")
  {
    var line := InsertPrefix + ExpenseValues(e, dateText) + ");";
    assert line[..|InsertPrefix|] == InsertPrefix;
    line
  }

  /** One statement per expense, in input order. */
  function UpsertStatements(es: seq<Expense>, dateText: CalDate -> string): (statements: seq<string>)
    ensures |statements| == |es|
    ensures forall k :: 0 <= k < |es| ==> statements[k] == InsertLine(es[k], dateText)
  {
    seq(|es|, k requires 0 <= k < |es| => InsertLine(es[k], dateText))
  }

  /** `ensureSemicolon`: the statement, terminated by `;`. */
  function EnsureSemicolon(sql: string): (r: string)
    ensures EndsWith(r, ";")
    ensures StartsWith(r, sql) && |r| <= |sql| + 1
    ensures EndsWith(sql, ";") ==> r == sql
  {
    if EndsWith(sql, ";") then sql
    else
      assert (sql + ";")[..|sql|] == sql;
      sql + ";"
  }

  /** Terminating twice is terminating once. */
  lemma EnsureSemicolonIdempotent(sql: string)
    ensures EnsureSemicolon(EnsureSemicolon(sql)) == EnsureSemicolon(sql)
  {
  }

  /** The batch text: the statements, each terminated, one per line. */
  function MutationText(statements: seq<string>): (r: string)
    ensures statements == [] ==> r == ""
    ensures statements != [] ==> StartsWith(r, statements[0]) && EndsWith(r, ";")
  {
    var lines := seq(|statements|, k requires 0 <= k < |statements| => EnsureSemicolon(statements[k]));
    if lines == [] then ""
    else
      JoinEnds(lines, "\n");
      var r := Join(lines, "\n");
      assert r[..|statements[0]|] == lines[0][..|statements[0]|];
      r
  }

  /** The statements of `upsertExpenses` pass through `ensureSemicolon` unchanged. */
  lemma MutationTextOfUpserts(es: seq<Expense>, dateText: CalDate -> string)
    ensures MutationText(UpsertStatements(es, dateText)) == Join(UpsertStatements(es, dateText), "\n")
  {
    var statements := UpsertStatements(es, dateText);
    assert seq(|statements|, k requires 0 <= k < |statements| => EnsureSemicolon(statements[k])) == statements;
  }

  // ---------------------------------------------------------------------------
  // The batch and the rewrite
  // ---------------------------------------------------------------------------

  /** What stops the DuckDB batch: the initial `COPY ... FROM` (missing file, a
      duplicate key in the ledger), a statement DuckDB rejects, or the final `COPY ... TO`. */
  datatype ExecFailure = StageFailed | StatementRejected(index: nat) | WriteFailed

  datatype DbError =
    | CopyFailed(src: string, dst: string)
    | RenameFailed(src: string, dst: string)
    | ExecFailed(reason: ExecFailure)
    | QueryFailed(file: string)

  /** The steps of `mutateExpenses` that can fail for reasons outside the model (disk,
      permissions, the engine), named so that a caller can pick which ones do. */
  datatype Step = BackupStep | StageStep | WriteStep | RenameStep | RestoreStep

  /** The rows DuckDB upserts, one per statement; `interpret` says how it reads a
      statement, and `None` is a statement it rejects. The first rejected index is reported. */
  function InterpretAll(statements: seq<string>, interpret: string -> Option<Expense>): (r: Result<seq<Expense>, nat>)
    ensures r.Success? ==> |r.value| == |statements| && forall k :: 0 <= k < |statements| ==> interpret(statements[k]) == Some(r.value[k])
    ensures r.Failure? ==> r.error < |statements| && interpret(statements[r.error]).None?
                           && forall k :: 0 <= k < r.error ==> interpret(statements[k]).Some?
    decreases |statements|
  {
    if statements == [] then Success([])
    else
      match interpret(statements[0])
      case None => Failure(0)
      case Some(e) =>
        match InterpretAll(statements[1..], interpret)
        case Success(es) => Success([e] + es)
        case Failure(k) => Failure(k + 1)
  }

  /** DuckDB reads each statement generated for the batch back as the expense it was
      written for. */
  ghost predicate ReadsBack(interpret: string -> Option<Expense>, dateText: CalDate -> string, es: seq<Expense>) {
    forall k :: 0 <= k < |es| ==> interpret(InsertLine(es[k], dateText)) == Some(es[k])
  }

  lemma InterpretUpserts(es: seq<Expense>, dateText: CalDate -> string, interpret: string -> Option<Expense>)
    requires ReadsBack(interpret, dateText, es)
    ensures InterpretAll(UpsertStatements(es, dateText), interpret) == Success(es)
  {
    var r := InterpretAll(UpsertStatements(es, dateText), interpret);
    assert r.Success?;
    forall k | 0 <= k < |es|
      ensures r.value[k] == es[k]
    {
      assert interpret(InsertLine(es[k], dateText)) == Some(es[k]);
    }
    assert r.value == es;
  }

  /** The first expense of `es` that `render` prints as `line`. */
  function FirstPrintedAs(es: seq<Expense>, render: Expense -> string, line: string): (r: Option<Expense>)
    ensures r.Some? ==> r.value in es && render(r.value) == line
    ensures r.None? ==> forall k :: 0 <= k < |es| ==> render(es[k]) != line
  {
    if es == [] then None
    else if render(es[0]) == line then Some(es[0])
    else FirstPrintedAs(es[1..], render, line)
  }

  /** A reader that looks statements up in the batch reads it back whenever distinct
      expenses of the batch have distinct statements, so the condition can be met. */
  lemma ReadsBackByLookup(es: seq<Expense>, dateText: CalDate -> string)
    requires forall i, j :: 0 <= i < |es| && 0 <= j < |es| && InsertLine(es[i], dateText) == InsertLine(es[j], dateText) ==> es[i] == es[j]
    ensures ReadsBack(line => FirstPrintedAs(es, e => InsertLine(e, dateText), line), dateText, es)
  {
    var render := e => InsertLine(e, dateText);
    forall k | 0 <= k < |es|
      ensures FirstPrintedAs(es, render, render(es[k])) == Some(es[k])
    {
      LookupFindsOwn(es, render, k);
    }
  }

  lemma LookupFindsOwn(es: seq<Expense>, render: Expense -> string, k: nat)
    requires k < |es|
    requires forall i, j :: 0 <= i < |es| && 0 <= j < |es| && render(es[i]) == render(es[j]) ==> es[i] == es[j]
    ensures FirstPrintedAs(es, render, render(es[k])) == Some(es[k])
  {
    var r := FirstPrintedAs(es, render, render(es[k]));
    assert r.Some?;
    var j :| 0 <= j < |es| && es[j] == r.value;
  }

  /** The DuckDB batch on the ledger's rows: stage, apply, and the rows the final `COPY` writes. */
  function Exec(rows: seq<Expense>, statements: seq<string>, interpret: string -> Option<Expense>,
                faults: set<Step>): Result<seq<Expense>, ExecFailure>
  {
    if !UniqueIds(rows) || StageStep in faults then Failure(StageFailed)
    else
      match InterpretAll(statements, interpret)
      case Failure(k) => Failure(StatementRejected(k))
      case Success(batch) =>
        if WriteStep in faults then Failure(WriteFailed)
        else Success(Materialize(rows, batch))
  }

  /** The batch succeeds exactly when the ledger has unique keys, DuckDB reads every
      statement and neither the staging nor the final copy fails; a rejected statement is
      reported by its index. */
  lemma ExecOutcome(rows: seq<Expense>, statements: seq<string>, interpret: string -> Option<Expense>, faults: set<Step>)
    ensures var r := Exec(rows, statements, interpret, faults);
      && (r.Success? <==>
           UniqueIds(rows) && StageStep !in faults && InterpretAll(statements, interpret).Success? && WriteStep !in faults)
      && (r.Failure? && r.error.StatementRejected? ==>
           r.error.index < |statements| && interpret(statements[r.error.index]).None?)
  {
  }

  /** The `catch` block: copy the backup over the ledger and rethrow; if that copy fails,
      its own error is what propagates and the ledger is gone (see `FileSystem.CopyFile`). */
  function Recover(files: map<string, seq<Expense>>, file: string, err: DbError, faults: set<Step>): (Outcome<DbError>, map<string, seq<Expense>>)
    requires BackupPath(file) in files
  {
    if RestoreStep in faults then (Fail(CopyFailed(BackupPath(file), file)), files - {file})
    else (Fail(err), files[file := files[BackupPath(file)]])
  }

  /** The outcome of `mutateExpenses` and the files afterwards, for the files before,
      the ledger path, the statements and the steps that fail. */
  function MutateSpec(files: map<string, seq<Expense>>, file: string, statements: seq<string>,
                      interpret: string -> Option<Expense>, faults: set<Step>): (Outcome<DbError>, map<string, seq<Expense>>)
  {
    var backup, tmp := BackupPath(file), TmpPath(file);
    if file !in files then (Fail(CopyFailed(file, backup)), files)
    else if BackupStep in faults then (Fail(CopyFailed(file, backup)), files - {backup})
    else
      var before := files[file];
      var backedUp := files[backup := before];
      match Exec(before, statements, interpret, faults)
      case Failure(reason) => Recover(backedUp, file, ExecFailed(reason), faults)
      case Success(out) =>
        var written := backedUp[tmp := out];
        if RenameStep in faults then Recover(written, file, RenameFailed(tmp, file), faults)
        else (Pass, (written - {tmp})[file := out])
  }

  /** If the backup cannot be made, nothing else runs: a missing ledger changes no file,
      and a copy that fails on the way loses the old backup but keeps the ledger. */
  lemma BackupFailureKeepsLedger(files: map<string, seq<Expense>>, file: string, statements: seq<string>,
                                 interpret: string -> Option<Expense>, faults: set<Step>)
    requires file !in files || BackupStep in faults
    ensures MutateSpec(files, file, statements, interpret, faults) ==
      (Fail(CopyFailed(file, BackupPath(file))), if file in files then files - {BackupPath(file)} else files)
    ensures var after := MutateSpec(files, file, statements, interpret, faults).1;
      file in files ==> file in after && after[file] == files[file]
  {
    PathsAreDistinct(file);
  }

  /** A failed rewrite leaves the ledger as it was, unless the restore copy fails too, and
      then the ledger is gone; once the backup was made, it holds the old ledger. */
  lemma FailureKeepsLedger(files: map<string, seq<Expense>>, file: string, statements: seq<string>,
                           interpret: string -> Option<Expense>, faults: set<Step>)
    requires file in files
    requires MutateSpec(files, file, statements, interpret, faults).0.Fail?
    ensures var after := MutateSpec(files, file, statements, interpret, faults).1;
      && (BackupStep in faults || RestoreStep !in faults ==> file in after && after[file] == files[file])
      && (BackupStep !in faults && RestoreStep in faults ==> file !in after)
      && (BackupStep !in faults ==> BackupPath(file) in after && after[BackupPath(file)] == files[file])
  {
    PathsAreDistinct(file);
  }

  /** Unless the restore itself fails, the error is the one the batch or the rename raised. */
  lemma FailureRethrowsOriginalError(files: map<string, seq<Expense>>, file: string, statements: seq<string>,
                                     interpret: string -> Option<Expense>, faults: set<Step>)
    requires file in files && BackupStep !in faults && RestoreStep !in faults
    ensures var r := MutateSpec(files, file, statements, interpret, faults).0;
      match Exec(files[file], statements, interpret, faults)
      case Failure(reason) => r == Fail(ExecFailed(reason))
      case Success(_) => r == (if RenameStep in faults then Fail(RenameFailed(TmpPath(file), file)) else Pass)
  {
  }

  /** The rewrite succeeds exactly when the backup, the batch and the rename all do; then
      the ledger holds the batch's output, the backup holds the old ledger, the temporary
      file is gone and no other file changes. */
  lemma SuccessWritesBatchOutput(files: map<string, seq<Expense>>, file: string, statements: seq<string>,
                                 interpret: string -> Option<Expense>, faults: set<Step>)
    ensures MutateSpec(files, file, statements, interpret, faults).0.Pass? <==>
      file in files && BackupStep !in faults && RenameStep !in faults
      && Exec(files[file], statements, interpret, faults).Success?
    ensures MutateSpec(files, file, statements, interpret, faults).0.Pass? ==>
      var after := MutateSpec(files, file, statements, interpret, faults).1;
      && file in after && after[file] == Exec(files[file], statements, interpret, faults).value
      && BackupPath(file) in after && after[BackupPath(file)] == files[file]
      && TmpPath(file) !in after
      && forall p :: p != file && p != BackupPath(file) && p != TmpPath(file) ==>
           (p in after <==> p in files) && (p in after ==> after[p] == files[p])
  {
    PathsAreDistinct(file);
    if MutateSpec(files, file, statements, interpret, faults).0.Pass? {
      assert file in files && BackupStep !in faults;
      var batch := Exec(files[file], statements, interpret, faults);
      assert batch.Success? && RenameStep !in faults;
      var written := files[BackupPath(file) := files[file]][TmpPath(file) := batch.value];
      assert MutateSpec(files, file, statements, interpret, faults).1 == (written - {TmpPath(file)})[file := batch.value];
      forall p | p != file && p != BackupPath(file) && p != TmpPath(file)
        ensures var after := MutateSpec(files, file, statements, interpret, faults).1;
          (p in after <==> p in files) && (p in after ==> after[p] == files[p])
      {
        OnlyLedgerFilesChange(files, file, statements, interpret, faults, p);
      }
    }
  }

  /** After a successful rewrite of generated statements that DuckDB reads back, the
      ledger holds the old rows upserted with the expenses, sorted. */
  lemma SuccessfulUpsertLedger(files: map<string, seq<Expense>>, file: string, es: seq<Expense>,
                               dateText: CalDate -> string, interpret: string -> Option<Expense>, faults: set<Step>)
    requires ReadsBack(interpret, dateText, es)
    requires MutateSpec(files, file, UpsertStatements(es, dateText), interpret, faults).0.Pass?
    ensures file in files
    ensures var after := MutateSpec(files, file, UpsertStatements(es, dateText), interpret, faults).1;
      file in after && after[file] == Materialize(files[file], es)
  {
    var statements := UpsertStatements(es, dateText);
    SuccessWritesBatchOutput(files, file, statements, interpret, faults);
    InterpretUpserts(es, dateText, interpret);
    assert Exec(files[file], statements, interpret, faults) == Success(Materialize(files[file], es));
  }

  /** Whatever happens, only the ledger, its backup and its temporary file can change. */
  lemma OnlyLedgerFilesChange(files: map<string, seq<Expense>>, file: string, statements: seq<string>,
                              interpret: string -> Option<Expense>, faults: set<Step>, p: string)
    requires p != file && p != BackupPath(file) && p != TmpPath(file)
    ensures var after := MutateSpec(files, file, statements, interpret, faults).1;
      (p in after <==> p in files) && (p in after ==> after[p] == files[p])
  {
    if file in files && BackupStep !in faults {
      var backedUp := files[BackupPath(file) := files[file]];
      match Exec(files[file], statements, interpret, faults)
      case Failure(reason) =>
        RecoverTouchesOnlyLedger(backedUp, file, ExecFailed(reason), faults, p);
      case Success(out) =>
        if RenameStep in faults {
          RecoverTouchesOnlyLedger(backedUp[TmpPath(file) := out], file, RenameFailed(TmpPath(file), file), faults, p);
        }
    }
  }

  /** The restore writes the ledger and nothing else. */
  lemma RecoverTouchesOnlyLedger(files: map<string, seq<Expense>>, file: string, err: DbError, faults: set<Step>, p: string)
    requires BackupPath(file) in files && p != file
    ensures var after := Recover(files, file, err, faults).1;
      (p in after <==> p in files) && (p in after ==> after[p] == files[p])
  {
  }

  /** On success the new ledger is the old one upserted with the statements' rows,
      sorted, one row per key. */
  lemma SuccessfulBatchUpserts(rows: seq<Expense>, statements: seq<string>, interpret: string -> Option<Expense>,
                               faults: set<Step>, x: Expense)
    requires Exec(rows, statements, interpret, faults).Success?
    ensures UniqueIds(rows)
    ensures var batch := InterpretAll(statements, interpret).value;
      var out := Exec(rows, statements, interpret, faults).value;
      && SortedRows(out) && UniqueIds(out)
      && (x in out <==> LastById(batch, x.id) == Some(x) || (LastById(batch, x.id) == None && x in rows))
  {
    MaterializeContents(rows, InterpretAll(statements, interpret).value, x);
  }

  // ---------------------------------------------------------------------------
  // Reading
  // ---------------------------------------------------------------------------

  const Placeholder: string := "%expenses%"
  const LoadQuery: string := "SELECT * FROM " + Placeholder

  /** The table expression that `%expenses%` stands for. */
  function ReadCsvSource(file: string): (r: string)
    ensures StartsWith(r, "read_csv('" + file)
  {
    FramedStartsWith("read_csv('", file, "', header=true, columns=", ColumnsForCSV(), ", timestampformat='", TsFormat, "')");
    "read_csv('" + file + "', header=true, columns=" + ColumnsForCSV() + ", timestampformat='" + TsFormat + "')"
  }

  /** Different ledger files give different sources: the source names its file. */
  lemma ReadCsvSourceNamesFile(f1: string, f2: string)
    requires ReadCsvSource(f1) == ReadCsvSource(f2)
    ensures f1 == f2
  {
    FramedTextsAgree("read_csv('", f1, f2, "', header=true, columns=", ColumnsForCSV(), ", timestampformat='", TsFormat, "')");
  }

  lemma FramedStartsWith(head: string, f: string, a: string, b: string, c: string, d: string, z: string)
    ensures StartsWith(head + f + a + b + c + d + z, head + f)
  {
    var t := head + f + a + b + c + d + z;
    assert t[..|head + f|] == head + f;
  }

  lemma FramedTextsAgree(head: string, f1: string, f2: string, a: string, b: string, c: string, d: string, z: string)
    requires head + f1 + a + b + c + d + z == head + f2 + a + b + c + d + z
    ensures f1 == f2
  {
    var t1, t2 := head + f1 + a + b + c + d + z, head + f2 + a + b + c + d + z;
    assert |f1| == |f2|;
    assert t1[|head|..|head| + |f1|] == f1;
    assert t2[|head|..|head| + |f2|] == f2;
  }

  /** `loadExpenses` asks for every row of the ledger. */
  lemma LoadQueryText(source: string)
    ensures ReplaceAll(LoadQuery, Placeholder, source) == "SELECT * FROM " + source
  {
    var u := "SELECT * FROM ";
    assert forall k :: 0 <= k < |u| ==> u[k] != Placeholder[0];
    ReplaceAllAfterPrefix(u, Placeholder, source);
  }

  /** The rows DuckDB hands back for the ledger's rows: typed values, with the DATE and
      TIMESTAMP columns as JavaScript dates that `String` prints with `printDate` and
      `printInstant`. */
  function DbRecords(rows: seq<Expense>, printDate: CalDate -> string, printInstant: int -> string): (records: seq<RawRecord>)
    ensures |records| == |rows|
  {
    seq(|rows|, k requires 0 <= k < |rows| => ToRecord(rows[k], printDate, printInstant))
  }

  /** The result of `loadExpenses` on the given files: `read_csv` fails on a missing
      ledger; otherwise its rows go through `fromDBExpenses`. */
  function LoadResult(files: map<string, seq<Expense>>, file: string, p: Parsers,
                      printDate: CalDate -> string, printInstant: int -> string): (r: Result<seq<Expense>, DbError>)
    ensures file !in files <==> r.Failure?
    ensures file in files ==> |r.value| == |files[file]|
  {
    if file in files then Success(FromDBExpenses(DbRecords(files[file], printDate, printInstant), p))
    else Failure(QueryFailed(file))
  }

  /** When the runtime reads its own date texts back, loading returns the ledger's rows. */
  lemma LoadReadsLedger(files: map<string, seq<Expense>>, file: string, p: Parsers,
                        printDate: CalDate -> string, printInstant: int -> string)
    requires file in files
    requires forall k :: 0 <= k < |files[file]| ==> DatesReadBack(files[file][k], p, printDate, printInstant)
    ensures LoadResult(files, file, p, printDate, printInstant) == Success(files[file])
  {
    FromUserExpensesRoundTrip(files[file], p, printDate, printInstant);
  }

  /** When the runtime reads the instant that DuckDB's date prints back as whole seconds,
      the loaded row carries the truncated `updatedAt`, and a row with milliseconds does not
      read back as itself. */
  lemma LoadCutsMilliseconds(files: map<string, seq<Expense>>, file: string, p: Parsers,
                             printDate: CalDate -> string, printInstant: int -> string, k: nat)
    requires file in files && k < |files[file]|
    requires p.instant(printInstant(files[file][k].updatedAt)) == WholeSeconds(files[file][k].updatedAt)
    ensures LoadResult(files, file, p, printDate, printInstant).value[k].updatedAt == WholeSeconds(files[file][k].updatedAt)
    ensures files[file][k].updatedAt % 1000 != 0 ==> !DatesReadBack(files[file][k], p, printDate, printInstant)
  {
    var records := DbRecords(files[file], printDate, printInstant);
    assert records[k] == ToRecord(files[file][k], printDate, printInstant);
  }

  /** A query without `%expenses%` is sent as it is. */
  lemma QueryTextWithoutPlaceholder(db: DB, query: string)
    requires forall k: nat :: k < |query| ==> !OccursAt(query, Placeholder, k)
    ensures db.QueryText(query) == query
  {
    assert forall k: nat :: !OccursAt(query, Placeholder, k);
    ReplaceAllWithoutOccurrence(query, Placeholder, db.from);
  }

  /** The first `%expenses%` of a query becomes the `read_csv` source, the text before it
      is kept, and the rest of the query is treated the same way. */
  lemma QueryTextReplacesPlaceholder(db: DB, u: string, w: string)
    requires forall k :: 0 <= k < |u| ==> !OccursAt(u + Placeholder + w, Placeholder, k)
    ensures db.QueryText(u + Placeholder + w) == u + db.from + db.QueryText(w)
  {
    ReplaceAllFirstOccurrence(u, w, Placeholder, db.from);
  }

  // ---------------------------------------------------------------------------
  // The file system and the store
  // ---------------------------------------------------------------------------

  /** The files the server sees, each holding ledger rows. */
  class FileSystem {
    var files: map<string, seq<Expense>>

    constructor(initial: map<string, seq<Expense>>)
      ensures files == initial
    {
      files := initial;
    }

    /** `fs.copyFileSync`: fails on a missing source before the target is touched, or,
        when `fails` says so, after opening the target, which is then removed. */
    method CopyFile(src: string, dst: string, fails: bool) returns (r: Outcome<DbError>)
      modifies this
      ensures src in old(files) && !fails ==> r == Pass && files == old(files)[dst := old(files)[src]]
      ensures src in old(files) && fails ==> r == Fail(CopyFailed(src, dst)) && files == old(files) - {dst}
      ensures src !in old(files) ==> r == Fail(CopyFailed(src, dst)) && files == old(files)
    {
      if src !in files {
        r := Fail(CopyFailed(src, dst));
      } else if fails {
        files := files - {dst};
        r := Fail(CopyFailed(src, dst));
      } else {
        files := files[dst := files[src]];
        r := Pass;
      }
    }

    /** `fs.renameSync`: the target is replaced and the source is gone. */
    method Rename(src: string, dst: string, fails: bool) returns (r: Outcome<DbError>)
      modifies this
      ensures src in old(files) && !fails ==> r == Pass && files == (old(files) - {src})[dst := old(files)[src]]
      ensures !(src in old(files) && !fails) ==> r == Fail(RenameFailed(src, dst)) && files == old(files)
    {
      if src in files && !fails {
        files := (files - {src})[dst := files[src]];
        r := Pass;
      } else {
        r := Fail(RenameFailed(src, dst));
      }
    }

    /** The final `COPY ... TO` writing a whole file. */
    method WriteFile(path: string, rows: seq<Expense>)
      modifies this
      ensures files == old(files)[path := rows]
    {
      files := files[path := rows];
    }
  }

  /** `DB`: the ledger file chosen at construction and the `read_csv` source over it. */
  class DB {
    const fs: FileSystem
    const file: string
    const from: string

    constructor(dev: bool, fs: FileSystem)
      ensures this.fs == fs
      ensures file == LedgerFile(dev) && from == ReadCsvSource(LedgerFile(dev))
    {
      this.fs := fs;
      file := LedgerFile(dev);
      from := ReadCsvSource(LedgerFile(dev));
    }

    /** The SQL that `queryExpenses` sends: every `%expenses%` replaced by the source. */
    function QueryText(query: string): string {
      ReplaceAll(query, Placeholder, from)
    }

    /** `loadExpenses`. */
    method LoadExpenses(p: Parsers, printDate: CalDate -> string, printInstant: int -> string)
      returns (r: Result<seq<Expense>, DbError>)
      ensures r == LoadResult(fs.files, file, p, printDate, printInstant)
    {
      if file in fs.files {
        var rows := DbRecords(fs.files[file], printDate, printInstant);
        r := Success(FromDBExpenses(rows, p));
      } else {
        r := Failure(QueryFailed(file));
      }
    }

    /** `mutateExpenses`: back up, run the batch, write the temporary file, rename it over
        the ledger; on any failure after the backup, copy the backup back and rethrow. */
    method MutateExpenses(statements: seq<string>, interpret: string -> Option<Expense>, faults: set<Step>)
      returns (r: Outcome<DbError>)
      modifies fs
      ensures (r, fs.files) == MutateSpec(old(fs.files), file, statements, interpret, faults)
    {
      var backup, tmp := BackupPath(file), TmpPath(file);
      PathsAreDistinct(file);
      r := fs.CopyFile(file, backup, BackupStep in faults);
      if r.Fail? {
        return;
      }
      var err: DbError;
      var batch := Exec(fs.files[file], statements, interpret, faults);
      if batch.Success? {
        fs.WriteFile(tmp, batch.value);
        var renamed := fs.Rename(tmp, file, RenameStep in faults);
        if renamed.Pass? {
          return Pass;
        }
        err := renamed.error;
      } else {
        err := ExecFailed(batch.error);
      }
      var restored := fs.CopyFile(backup, file, RestoreStep in faults);
      r := if restored.Fail? then restored else Fail(err);
    }

    /** `upsertExpenses`: one `INSERT OR REPLACE` per expense, handed to `mutateExpenses`. */
    method UpsertExpenses(expenses: seq<Expense>, dateText: CalDate -> string,
                          interpret: string -> Option<Expense>, faults: set<Step>)
      returns (r: Outcome<DbError>)
      modifies fs
      ensures (r, fs.files) == MutateSpec(old(fs.files), file, UpsertStatements(expenses, dateText), interpret, faults)
    {
      var insertLines := UpsertStatements(expenses, dateText);
      r := MutateExpenses(insertLines, interpret, faults);
    }
  }
}
