/**
 * The earlier script run.py: its row test (number and name only), the
 * contexts it builds with fixed month, year and amounts, its statement
 * file choice (`.xls` or `.xlsx`) and its `fill_template`.
 */
module RunScript {
  import opened Wrappers
  import opened Text
  import opened Cells
  import opened Statement
  import opened Template

  /** `StatementCols`: the column letters are fixed in the class. */
  const NumberColumn := "A"
  const NameColumn := "C"
  const AccountColumn := "D"
  const DebtColumn := "I"

  /** The module-level `FIRST_ROW` and `LAST_ROW`, read from the settings file. */
  datatype Config = Config(firstRow: int, lastRow: int)

  /** `column_index_from_string`, `os.listdir(STATEMENT_FOLDER)` and `load_workbook(...).worksheets[0]`. */
  datatype Host = Host(columnIndex: string -> ColumnNumber, listing: seq<string>, open: string -> Sheet)

  function Column(host: Host, letter: string): nat {
    GetColIndex(host.columnIndex, letter)
  }

  /** `is_valid`: both the number and the name cell are truthy. */
  function IsValid(host: Host, row: Row): Result<bool, Error> {
    var number :- CellAt(row, Column(host, NumberColumn));
    var name :- CellAt(row, Column(host, NameColumn));
    Ok(Truthy(number) && Truthy(name))
  }

  /** Valid exactly when both cells exist and are truthy; it fails only when one lies past the row. */
  lemma IsValidMeaning(host: Host, row: Row)
    ensures var iN, iM := Column(host, NumberColumn), Column(host, NameColumn);
      && (IsValid(host, row) == Ok(true) <==> iN < |row| && iM < |row| && Truthy(row[iN]) && Truthy(row[iM]))
      && (IsValid(host, row).Err? <==> !(iN < |row| && iM < |row|))
  {
  }

  /** Columns other than the number and the name have no say in the row test. */
  lemma IsValidIgnoresOtherColumns(host: Host, row: Row, row': Row)
    requires |row| == |row'|
    requires Column(host, NumberColumn) < |row| ==> row[Column(host, NumberColumn)] == row'[Column(host, NumberColumn)]
    requires Column(host, NameColumn) < |row| ==> row[Column(host, NameColumn)] == row'[Column(host, NameColumn)]
    ensures IsValid(host, row) == IsValid(host, row')
  {
  }

  /** The context of a valid row: four cells of the row and four fixed strings. */
  function RowContext(host: Host, row: Row): Result<Context, Error>
    requires IsValid(host, row) == Ok(true)
  {
    IsValidMeaning(host, row);
    var number := row[Column(host, NumberColumn)];  // read by the row test already
    var name := row[Column(host, NameColumn)];
    var account :- CellAt(row, Column(host, AccountColumn));
    var debt :- CellAt(row, Column(host, DebtColumn));
    Ok([
      Entry(Placeholders[0], number),
      Entry(Placeholders[1], name),
      Entry(Placeholders[2], account),
      Entry(Placeholders[3], String("Февраль")),
      Entry(Placeholders[4], String("2021")),
      Entry(Placeholders[5], debt),
      Entry(Placeholders[6], String("4043")),
      Entry(Placeholders[7], String("00"))
    ])
  }

  /**
   * A valid row's context has the eight placeholders in order, takes
   * number, name, account and debt from the row, and has the constants
   * "Февраль", "2021", "4043" and "00". It fails only when the account or
   * debt column is past the row.
   */
  lemma RowContextShape(host: Host, row: Row)
    requires IsValid(host, row) == Ok(true)
    ensures RowContext(host, row).Err? <==>
              Column(host, AccountColumn) >= |row| || Column(host, DebtColumn) >= |row|
    ensures RowContext(host, row).Ok? ==>
      var c := RowContext(host, row).value;
      && Keys(c) == Placeholders && KeysWellFormed(c)
      && c[0].value == row[Column(host, NumberColumn)]
      && c[1].value == row[Column(host, NameColumn)]
      && c[2].value == row[Column(host, AccountColumn)]
      && c[3].value == String("Февраль")
      && c[4].value == String("2021")
      && c[5].value == row[Column(host, DebtColumn)]
      && c[6].value == String("4043")
      && c[7].value == String("00")
  {
    IsValidMeaning(host, row);
    PlaceholdersWellFormed();
  }

  /** One iteration of the row loop. */
  function Examine(host: Host, row: Row): Result<Option<Context>, Error> {
    var valid :- IsValid(host, row);
    if !valid then Ok(None)
    else
      var context :- RowContext(host, row);
      Ok(Some(context))
  }

  function Examiner(host: Host): Examiner {
    row => Examine(host, row)
  }

  predicate IsStatementFile(name: string) {
    EndsWith(name, ".xls") || EndsWith(name, ".xlsx")
  }

  /** `read_statement` as a value: the file choice, then the rows `FIRST_ROW..LAST_ROW`. */
  function ReadResult(cfg: Config, host: Host): Result<seq<Context>, Error> {
    var file :- PickFirst(host.listing, IsStatementFile);
    Scan(Examiner(host), host.open(file), cfg.firstRow, cfg.lastRow)
  }

  /** `read_statement`. */
  method ReadStatement(cfg: Config, host: Host) returns (r: Result<seq<Context>, Error>)
    ensures r == ReadResult(cfg, host)
  {
    var statementFiles := Filter(host.listing, IsStatementFile);
    if |statementFiles| == 0 {
      return Err(NoStatementFile);
    }
    var statement := host.open(statementFiles[0]);
    r := ReadRows(Examiner(host), statement, cfg.firstRow, cfg.lastRow);
  }

  lemma ExamineNeverMissingFile(host: Host, row: Row)
    ensures Examine(host, row) != Err(NoStatementFile)
  {
    if IsValid(host, row) == Ok(true) {
      RowContextShape(host, row);
    }
  }

  /** The statement is the first listed `.xls` or `.xlsx` file; without one the script stops. */
  lemma ReadResultMissingFile(cfg: Config, host: Host)
    ensures ReadResult(cfg, host) == Err(NoStatementFile) <==>
              forall i :: 0 <= i < |host.listing| ==>
                !EndsWith(host.listing[i], ".xls") && !EndsWith(host.listing[i], ".xlsx")
  {
    PickFirstIsFirstAccepted(host.listing, IsStatementFile);
    var p := PickFirst(host.listing, IsStatementFile);
    if p.Ok? {
      var sheet := host.open(p.value);
      ScanErr(Examiner(host), sheet, cfg.firstRow, cfg.lastRow);
      if ReadResult(cfg, host).Err? {
        var r :| cfg.firstRow <= r <= cfg.lastRow
                 && Examiner(host)(sheet(r)) == Err(ReadResult(cfg, host).error);
        ExamineNeverMissingFile(host, sheet(r));
      }
    }
  }

  /**
   * `read_statement` keeps exactly the valid rows of `FIRST_ROW..LAST_ROW`,
   * in row order, one context each, and each context is that row's.
   */
  lemma ReadResultRows(cfg: Config, host: Host, cs: seq<Context>)
    requires ReadResult(cfg, host) == Ok(cs)
    ensures PickFirst(host.listing, IsStatementFile).Ok?
    ensures var sheet := host.open(PickFirst(host.listing, IsStatementFile).value);
      var ks := Kept(Examiner(host), sheet, cfg.firstRow, cfg.lastRow);
      && |cs| == |ks|
      && |cs| <= (if cfg.firstRow <= cfg.lastRow then cfg.lastRow - cfg.firstRow + 1 else 0)
      && (forall i, j :: 0 <= i < j < |ks| ==> ks[i] < ks[j])
      && (forall i :: 0 <= i < |ks| ==>
            cfg.firstRow <= ks[i] <= cfg.lastRow && IsValid(host, sheet(ks[i])) == Ok(true)
            && RowContext(host, sheet(ks[i])) == Ok(cs[i]))
      && (forall r :: cfg.firstRow <= r <= cfg.lastRow && IsValid(host, sheet(r)) == Ok(true) ==> r in ks)
  {
    var sheet := host.open(PickFirst(host.listing, IsStatementFile).value);
    var ex := Examiner(host);
    ScanOk(ex, sheet, cfg.firstRow, cfg.lastRow, cs);
    KeptRows(ex, sheet, cfg.firstRow, cfg.lastRow);
    var ks := Kept(ex, sheet, cfg.firstRow, cfg.lastRow);
    forall i | 0 <= i < |ks|
      ensures IsValid(host, sheet(ks[i])) == Ok(true) && RowContext(host, sheet(ks[i])) == Ok(cs[i])
    {
      assert ex(sheet(ks[i])) == Ok(Some(cs[i]));
    }
    forall r | cfg.firstRow <= r <= cfg.lastRow && IsValid(host, sheet(r)) == Ok(true)
      ensures r in ks
    {
      assert ex(sheet(r)).Ok?;
      assert Accepted(ex, sheet, r);
    }
  }

  /** Every context carries the eight placeholders and the four constants. */
  lemma ReadResultContexts(cfg: Config, host: Host, cs: seq<Context>)
    requires ReadResult(cfg, host) == Ok(cs)
    ensures forall i :: 0 <= i < |cs| ==>
              Keys(cs[i]) == Placeholders && KeysWellFormed(cs[i])
              && cs[i][3].value == String("Февраль") && cs[i][4].value == String("2021")
              && cs[i][6].value == String("4043") && cs[i][7].value == String("00")
  {
    ReadResultRows(cfg, host, cs);
    var sheet := host.open(PickFirst(host.listing, IsStatementFile).value);
    var ks := Kept(Examiner(host), sheet, cfg.firstRow, cfg.lastRow);
    forall i | 0 <= i < |cs|
      ensures Keys(cs[i]) == Placeholders && KeysWellFormed(cs[i])
              && cs[i][3].value == String("Февраль") && cs[i][4].value == String("2021")
              && cs[i][6].value == String("4043") && cs[i][7].value == String("00")
    {
      RowContextShape(host, sheet(ks[i]));
    }
  }

  /** `fill_template(context, wb)` with the module-level `OUTPUT_FILENAME_FORMAT`. */
  method FillTemplate(context: Context, wb: Workbook, outputFilenameFormat: string) returns (saved: Document)
    requires KeysWellFormed(context)
    modifies wb
    ensures wb.grid == SubstituteGrid(old(wb.grid), context)
    ensures saved == Document(FileName(context, CellCount(old(wb.grid)), outputFilenameFormat), wb.grid)
  {
    saved := wb.FillTemplate(context, outputFilenameFormat);
  }
}
