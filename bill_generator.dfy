/**
 * `BillGenerator` of bill_generator.py: the row test with the overdue
 * threshold, the billing-period label, the context of a row and
 * `read_statement`, which keeps one context per valid row.
 */
module BillGenerator {
  import opened Wrappers
  import opened Text
  import opened Cells
  import opened Statement

  /** Column letters of the statement, from the COLUMNS section of the settings file. */
  datatype Columns = Columns(number: string, name: string, account: string, debt: string, debtMonths: string)

  /** The SETTINGS values the reader uses, already converted with `int()`. */
  datatype Config = Config(firstRow: int, lastRow: int, debtMonths: int, cols: Columns)

  type Month = m: int | 1 <= m <= 12 witness 1

  /** The locale's month names, January first, as `strftime('%B')` prints them. */
  type MonthTable = names: seq<string> | |names| == 12 witness seq(12, i => "")

  /** The years a Python `date` can hold, `MINYEAR..MAXYEAR`. */
  type Year = y: int | 1 <= y <= 9999 witness 1

  /** `date.today()`; only its year and month reach the output. */
  datatype Date = Date(year: Year, month: Month)

  /** The debt as `("%.2f" % debt).replace('.', ',')` and as `"%.f" % debt`. */
  datatype DebtText = DebtText(amount: string, rubles: string)

  /**
   * What the reader takes from the Python runtime and its libraries: the
   * run date, the month names, `column_index_from_string`, `float()` with
   * the two formats (None when `float()` raises), `os.listdir` of the
   * statement folder and `load_workbook(...).worksheets[0]`.
   */
  datatype Host = Host(
    today: Date,
    monthNames: MonthTable,
    columnIndex: string -> ColumnNumber,
    debtText: Cell -> Option<DebtText>,
    listing: seq<string>,
    open: string -> Sheet)

  function Column(host: Host, letter: string): nat {
    GetColIndex(host.columnIndex, letter)
  }

  // ---------------------------------------------------------------- billing period

  /** The month `k` months before `current`, as `today - relativedelta(months=k)` has it. */
  function MonthsBefore(current: Month, k: int): Month {
    (current - 1 - k) % 12 + 1
  }

  function PreviousMonth(m: Month): Month {
    if m == 1 then 12 else m - 1
  }

  /** Independent reference: step back one month at a time, `k` times. */
  function StepBack(m: Month, k: nat): Month
    decreases k
  {
    if k == 0 then m else PreviousMonth(StepBack(m, k - 1))
  }

  /**
   * The year of `today - relativedelta(months=k)`: the months counted from
   * January of year 0, less `k`, in whole years.
   */
  function YearBefore(today: Date, k: int): int {
    (today.year * 12 + today.month - 1 - k) / 12
  }

  /** Independent reference: the year reached by stepping back one month at a time, `k` times. */
  function StepBackYear(today: Date, k: nat): int
    decreases k
  {
    if k == 0 then today.year
    else if StepBack(today.month, k - 1) == 1 then StepBackYear(today, k - 1) - 1
    else StepBackYear(today, k - 1)
  }

  /**
   * `get_bill_months`. Subtracting the months builds the start date with
   * `date.replace`, which raises ValueError when its year falls below 1.
   */
  function BillMonths(names: MonthTable, today: Date, months: int): Result<string, Error> {
    var currentMonth := names[today.month - 1];
    if months <= 0 then Ok(currentMonth)
    else if YearBefore(today, months) < 1 then Err(StartBeforeYearOne)
    else Ok(names[MonthsBefore(today.month, months) - 1] + " - " + currentMonth)
  }

  lemma {:induction false} MonthsBeforeSteps(current: Month, k: nat)
    ensures MonthsBefore(current, k) == StepBack(current, k)
    decreases k
  {
    if k > 0 {
      MonthsBeforeSteps(current, k - 1);
      var x := (current - 1 - (k - 1)) % 12;
      var q := (current - 1 - (k - 1)) / 12;
      assert current - 1 - (k - 1) == 12 * q + x;
      if x == 0 {
        assert current - 1 - k == 12 * (q - 1) + 11;
      } else {
        assert current - 1 - k == 12 * q + (x - 1);
      }
    }
  }

  /** Going `k` months forward from the start month comes back to the current month. */
  lemma MonthsBeforeForward(current: Month, k: int)
    ensures (MonthsBefore(current, k) - 1 + k) % 12 == current - 1
  {
    var x := (current - 1 - k) % 12;
    var q := (current - 1 - k) / 12;
    assert current - 1 - k == 12 * q + x;
    assert x + k == (current - 1) + 12 * (-q);
  }

  /** The year of `today - relativedelta(months=k)` is the one reached stepping back `k` months. */
  lemma {:induction false} YearBeforeSteps(today: Date, k: nat)
    ensures YearBefore(today, k) == StepBackYear(today, k)
    decreases k
  {
    if k > 0 {
      YearBeforeSteps(today, k - 1);
      MonthsBeforeSteps(today.month, k - 1);
      var t := today.year * 12 + today.month - 1 - (k - 1);
      var q := t / 12;
      var x := t % 12;
      assert t == 12 * q + x;
      assert (today.month - 1 - (k - 1)) == 12 * (q - today.year) + x;
      assert MonthsBefore(today.month, k - 1) == x + 1;
      if x == 0 {
        assert t - 1 == 12 * (q - 1) + 11;
      } else {
        assert t - 1 == 12 * q + (x - 1);
      }
    }
  }

  /**
   * The label is the current month's name when `months <= 0`, and
   * otherwise "<name of the month `months` back> - <current month's name>";
   * it raises exactly when that start month lies before January of year 1.
   */
  lemma BillMonthsLabel(names: MonthTable, today: Date, months: int)
    ensures months <= 0 ==> BillMonths(names, today, months) == Ok(names[today.month - 1])
    ensures BillMonths(names, today, months).Err? <==>
              months > 0 && months >= 12 * (today.year - 1) + today.month
    ensures BillMonths(names, today, months).Err? ==>
              BillMonths(names, today, months).error == StartBeforeYearOne
    ensures months > 0 && BillMonths(names, today, months).Ok? ==>
              BillMonths(names, today, months).value
              == names[StepBack(today.month, months) - 1] + " - " + names[today.month - 1]
  {
    if months > 0 {
      MonthsBeforeSteps(today.month, months);
      var t := today.year * 12 + today.month - 1 - months;
      assert t == 12 * (t / 12) + t % 12;
    }
  }

  /** The start month falls before year 1 exactly when stepping back reaches year 0. */
  lemma StartBeforeYearOneSteps(names: MonthTable, today: Date, months: nat)
    ensures BillMonths(names, today, months).Err? <==> months > 0 && StepBackYear(today, months) < 1
  {
    YearBeforeSteps(today, months);
  }

  // ---------------------------------------------------------------- rows

  /**
   * `is_valid`: the number, name and debt-months cells are truthy and the
   * debt-months value is at least the threshold. All three cells are read
   * before the test; comparing a string cell with an `int` raises.
   */
  function IsValid(cfg: Config, host: Host, row: Row): Result<bool, Error> {
    var number :- CellAt(row, Column(host, cfg.cols.number));
    var name :- CellAt(row, Column(host, cfg.cols.name));
    var months :- CellAt(row, Column(host, cfg.cols.debtMonths));
    if !(Truthy(number) && Truthy(name) && Truthy(months)) then Ok(false)
    else if months.Number? then Ok(months.n >= cfg.debtMonths)
    else Err(DebtMonthsNotComparable)
  }

  lemma IsValidMeaning(cfg: Config, host: Host, row: Row)
    ensures var iN, iM, iD := Column(host, cfg.cols.number), Column(host, cfg.cols.name), Column(host, cfg.cols.debtMonths);
      && (IsValid(cfg, host, row) == Ok(true) <==>
            iN < |row| && iM < |row| && iD < |row|
            && Truthy(row[iN]) && Truthy(row[iM]) && row[iD].Number?
            && row[iD].n != 0 && row[iD].n >= cfg.debtMonths)
      && (IsValid(cfg, host, row).Err? <==>
            !(iN < |row| && iM < |row| && iD < |row|)
            || (Truthy(row[iN]) && Truthy(row[iM]) && row[iD].String? && row[iD].s != ""))
  {
  }

  /** The context dictionary of a valid row, with its eight placeholders. */
  function RowContext(cfg: Config, host: Host, row: Row): Result<Context, Error>
    requires IsValid(cfg, host, row) == Ok(true)
  {
    IsValidMeaning(cfg, host, row);
    var debtCell :- CellAt(row, Column(host, cfg.cols.debt));
    var debt :- if host.debtText(debtCell).Some? then Ok(host.debtText(debtCell).value) else Err(DebtNotNumber);
    var debtMonths := row[Column(host, cfg.cols.debtMonths)].n;
    var billMonths :- BillMonths(host.monthNames, host.today, debtMonths);
    var number := row[Column(host, cfg.cols.number)];  // read by the row test already
    var name := row[Column(host, cfg.cols.name)];
    var account :- CellAt(row, Column(host, cfg.cols.account));
    Ok([
      Entry(Placeholders[0], number),
      Entry(Placeholders[1], name),
      Entry(Placeholders[2], account),
      Entry(Placeholders[3], String(billMonths)),
      Entry(Placeholders[4], Number(host.today.year)),
      Entry(Placeholders[5], String(debt.amount)),
      Entry(Placeholders[6], String(debt.rubles)),
      Entry(Placeholders[7], String("0"))
    ])
  }

  /**
   * A valid row's context has the eight placeholders in order; number,
   * name and account are the row's cells, the month is the billing-period
   * label for the row's debt-months, the year is the run's, the kopecks are
   * "0". It fails only when the debt or account column is past the row or
   * `float()` refuses the debt cell.
   */
  lemma RowContextShape(cfg: Config, host: Host, row: Row)
    requires IsValid(cfg, host, row) == Ok(true)
    ensures RowContext(cfg, host, row).Err? <==>
              Column(host, cfg.cols.debt) >= |row| || Column(host, cfg.cols.account) >= |row|
              || host.debtText(row[Column(host, cfg.cols.debt)]).None?
              || var m := row[Column(host, cfg.cols.debtMonths)].n;
                 m > 0 && m >= 12 * (host.today.year - 1) + host.today.month
    ensures RowContext(cfg, host, row).Ok? ==>
      var c := RowContext(cfg, host, row).value;
      && Keys(c) == Placeholders && KeysWellFormed(c)
      && c[0].value == row[Column(host, cfg.cols.number)]
      && c[1].value == row[Column(host, cfg.cols.name)]
      && c[2].value == row[Column(host, cfg.cols.account)]
      && c[3].value == String(BillMonths(host.monthNames, host.today, row[Column(host, cfg.cols.debtMonths)].n).value)
      && c[4].value == Number(host.today.year)
      && c[5].value == String(host.debtText(row[Column(host, cfg.cols.debt)]).value.amount)
      && c[6].value == String(host.debtText(row[Column(host, cfg.cols.debt)]).value.rubles)
      && c[7].value == String("0")
  {
    IsValidMeaning(cfg, host, row);
    PlaceholdersWellFormed();
    BillMonthsLabel(host.monthNames, host.today, row[Column(host, cfg.cols.debtMonths)].n);
  }

  /** One iteration of the row loop. */
  function Examine(cfg: Config, host: Host, row: Row): Result<Option<Context>, Error> {
    var valid :- IsValid(cfg, host, row);
    if !valid then Ok(None)
    else
      var context :- RowContext(cfg, host, row);
      Ok(Some(context))
  }

  function Examiner(cfg: Config, host: Host): Examiner {
    row => Examine(cfg, host, row)
  }

  predicate IsStatementFile(name: string) {
    EndsWith(name, ".xlsx")
  }

  /** `read_statement` as a value: the file choice, then the rows `FIRST_ROW..LAST_ROW`. */
  function ReadResult(cfg: Config, host: Host): Result<seq<Context>, Error> {
    var file :- PickFirst(host.listing, IsStatementFile);
    Scan(Examiner(cfg, host), host.open(file), cfg.firstRow, cfg.lastRow)
  }

  /** `read_statement`. */
  method ReadStatement(cfg: Config, host: Host) returns (r: Result<seq<Context>, Error>)
    ensures r == ReadResult(cfg, host)
  {
    var statementFiles := Filter(host.listing, IsStatementFile);
    if |statementFiles| == 0 {
      return Err(NoStatementFile);
    }
    var statement := host.open(statementFiles[0]);
    r := ReadRows(Examiner(cfg, host), statement, cfg.firstRow, cfg.lastRow);
  }

  /** The reader only fails at a row, never with the missing-file error. */
  lemma ExamineNeverMissingFile(cfg: Config, host: Host, row: Row)
    ensures Examine(cfg, host, row) != Err(NoStatementFile)
  {
    if IsValid(cfg, host, row) == Ok(true) {
      RowContextShape(cfg, host, row);
    }
  }

  /** The statement is the first listed `.xlsx` file; without one the reader stops at once. */
  lemma ReadResultMissingFile(cfg: Config, host: Host)
    ensures ReadResult(cfg, host) == Err(NoStatementFile) <==>
              forall i :: 0 <= i < |host.listing| ==> !EndsWith(host.listing[i], ".xlsx")
  {
    PickFirstIsFirstAccepted(host.listing, IsStatementFile);
    var p := PickFirst(host.listing, IsStatementFile);
    if p.Ok? {
      var sheet := host.open(p.value);
      ScanErr(Examiner(cfg, host), sheet, cfg.firstRow, cfg.lastRow);
      if ReadResult(cfg, host).Err? {
        var r :| cfg.firstRow <= r <= cfg.lastRow
                 && Examiner(cfg, host)(sheet(r)) == Err(ReadResult(cfg, host).error);
        ExamineNeverMissingFile(cfg, host, sheet(r));
      }
    }
  }

  /**
   * `read_statement` returns one context per valid row of
   * `FIRST_ROW..LAST_ROW` of the chosen file, in row order: the row's own
   * context. Invalid rows contribute nothing and every valid row of the
   * range contributes, so there are at most as many contexts as rows.
   */
  lemma ReadResultRows(cfg: Config, host: Host, cs: seq<Context>)
    requires ReadResult(cfg, host) == Ok(cs)
    ensures PickFirst(host.listing, IsStatementFile).Ok?
    ensures var sheet := host.open(PickFirst(host.listing, IsStatementFile).value);
      var ks := Kept(Examiner(cfg, host), sheet, cfg.firstRow, cfg.lastRow);
      && |cs| == |ks|
      && |cs| <= (if cfg.firstRow <= cfg.lastRow then cfg.lastRow - cfg.firstRow + 1 else 0)
      && (forall i, j :: 0 <= i < j < |ks| ==> ks[i] < ks[j])
      && (forall i :: 0 <= i < |ks| ==>
            cfg.firstRow <= ks[i] <= cfg.lastRow && IsValid(cfg, host, sheet(ks[i])) == Ok(true)
            && RowContext(cfg, host, sheet(ks[i])) == Ok(cs[i]))
      && (forall r :: cfg.firstRow <= r <= cfg.lastRow && IsValid(cfg, host, sheet(r)) == Ok(true) ==> r in ks)
  {
    var sheet := host.open(PickFirst(host.listing, IsStatementFile).value);
    var ex := Examiner(cfg, host);
    ScanOk(ex, sheet, cfg.firstRow, cfg.lastRow, cs);
    KeptRows(ex, sheet, cfg.firstRow, cfg.lastRow);
    var ks := Kept(ex, sheet, cfg.firstRow, cfg.lastRow);
    forall i | 0 <= i < |ks|
      ensures IsValid(cfg, host, sheet(ks[i])) == Ok(true) && RowContext(cfg, host, sheet(ks[i])) == Ok(cs[i])
    {
      assert ex(sheet(ks[i])) == Ok(Some(cs[i]));
    }
    forall r | cfg.firstRow <= r <= cfg.lastRow && IsValid(cfg, host, sheet(r)) == Ok(true)
      ensures r in ks
    {
      assert ex(sheet(r)).Ok?;
      assert Accepted(ex, sheet, r);
    }
  }

  /**
   * Every context `read_statement` returns has exactly the eight
   * placeholders, the kopecks "0" and the run's year, and its keys are
   * ones `fill_template` accepts.
   */
  lemma ReadResultContexts(cfg: Config, host: Host, cs: seq<Context>)
    requires ReadResult(cfg, host) == Ok(cs)
    ensures forall i :: 0 <= i < |cs| ==>
              Keys(cs[i]) == Placeholders && KeysWellFormed(cs[i])
              && cs[i][4].value == Number(host.today.year) && cs[i][7].value == String("0")
  {
    ReadResultRows(cfg, host, cs);
    var sheet := host.open(PickFirst(host.listing, IsStatementFile).value);
    var ks := Kept(Examiner(cfg, host), sheet, cfg.firstRow, cfg.lastRow);
    forall i | 0 <= i < |cs|
      ensures Keys(cs[i]) == Placeholders && KeysWellFormed(cs[i])
              && cs[i][4].value == Number(host.today.year) && cs[i][7].value == String("0")
    {
      RowContextShape(cfg, host, sheet(ks[i]));
    }
  }
}
