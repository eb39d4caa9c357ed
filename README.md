# Bill generator: row selection and template filling

This project models the two scripts of a utility-bill generator,
`bill_generator.py` and the earlier `run.py`. Each one reads a billing
statement spreadsheet, keeps the rows that name a customer, builds one
placeholder-to-value *context* per kept row, and fills a template workbook
with each context to produce one bill file per customer.

Modules, one per concern:

- `Wrappers`: `Option` and a `Result` usable with `:-`. Python exceptions
  raised inside `read_statement` become `Err` values.
- `Text`: `startswith`, `endswith`, `in` and `str.replace` on strings.
- `Cells`: a cell's value (`None`, string, integer). Also `bool()` and
  `str()` of a value, contexts as ordered key/value lists, and the eight
  placeholder tokens.
- `Statement`: what both readers share. It holds the statement-file
  choice, `get_col_index`, cell access that raises past the end of the row,
  and the scan of rows `FIRST_ROW..LAST_ROW`. The scan is a specification
  function (`Scan`) and a loop (`ReadRows`).
- `Template`: the template `Workbook` class, whose `grid` field
  `fill_template` rewrites in place, and the substitution functions that
  specify that method.
- `BillGenerator`: the `BillGenerator` class of `bill_generator.py`. It
  covers the row test with the overdue-months threshold, the billing-period
  label, the row context and `read_statement`.
- `RunScript`: the same operations as `run.py` writes them. The columns
  and several context values are fixed there, and `.xls` files are also
  accepted.
- `App`: the record loop of `App.run`, as written and corrected (see
  Findings).

Foreign pieces are parameters:

- `column_index_from_string` is `columnIndex`.
- `float()` with the two debt formats is `debtText`.
- `strftime('%B')` is a 12-entry month-name table.
- `date.today()` is a `Date`.
- `os.listdir` is a `listing` sequence.
- `load_workbook(...).worksheets[0]` is `open`, which maps a file name to a
  function from row index to the row's cells.

Behaviour the model keeps:

- `get_bill_months` counts back from the current month. With `months <= 0`
  the label is the current month alone; otherwise it starts `months` months
  back. A start date before year 1 makes `date.replace` raise ValueError,
  which ends the read like any other exception.
- `is_valid` tests the debt-months cell for truthiness before comparing it.
  So a row whose debt-months is 0 is rejected even when the threshold is 0
  or less. A string in that cell makes the comparison raise.
- `run.py` uses the kopecks value `"00"`; `bill_generator.py` uses `"0"`.
- The template workbook is loaded once and reused for every record (see
  Findings).

## Model

| member | source | states |
|---|---|---|
| `Text.ReplaceAbsent` | bill_generator.py:97-99 | `s.replace(k, v)` returns `s` unchanged when `k` does not occur in `s` |
| `Text.ReplaceFirstOccurrence` | bill_generator.py:98 | replacement runs left to right without overlap: text before the first occurrence is kept, that occurrence becomes `v`, and the scan resumes after it |
| `Cells.NatToString` | bill_generator.py:98 | `str()` of a natural number is a non-empty string of decimal digits with no leading zero |
| `Cells.IntToString` | bill_generator.py:98 | `str()` of an integer is non-empty and holds only digits, with an optional leading minus |
| `Cells.ParseNatToString` | bill_generator.py:98 | reading back the digits `str()` prints gives the natural number |
| `Cells.ParseIntToString` | bill_generator.py:98 | `int(str(i)) == i` for every integer |
| `Cells.PlainValueHasNoKey` | bill_generator.py:97-98 | a placeholder never occurs in `str()` of a non-string cell (`"None"` or digits), so `.replace` is only reached on string cells |
| `Cells.PlaceholdersWellFormed` | bill_generator.py:63-72 | the eight context keys are distinct and each starts with `{` |
| `Statement.Filter` | bill_generator.py:45 | the list comprehension keeps exactly the names that pass the extension test: every kept name is a listed name that passes, every listed name that passes is kept, and the result is never longer than the listing |
| `Statement.FilterEmpty` | bill_generator.py:45-49 | the comprehension is empty exactly when no listed name passes the extension test |
| `Statement.FilterHead` | bill_generator.py:45-47 | the first element of a non-empty comprehension is the first listed name that passes the test |
| `Statement.FilterKeepsOrder` | bill_generator.py:45 | the comprehension keeps listing order: filtering a listing split in two gives the two filtered parts, in the same order |
| `Statement.PickFirstIsFirstAccepted` | bill_generator.py:45-49 | the chosen file is the first listed name with an accepted extension; the missing-file error happens exactly when no name is accepted |
| `Statement.KeptRows` | bill_generator.py:56-58 | the kept rows are exactly the accepted rows of the range, each once, strictly increasing and inside the range, and at most `last - first + 1` of them |
| `Statement.ScanOk` | bill_generator.py:56-73 | a scan that succeeds met no exception and returns one context per kept row: the one that row produced, in row order |
| `Statement.ScanErr` | bill_generator.py:56-73 | the scan fails exactly when some row of the range raises, and it fails with the exception of the first such row, since every earlier row of the range passed without raising |
| `Statement.ReadRows` | bill_generator.py:56-73 | the row loop that appends each accepted row's context returns what `Scan` specifies |
| `Template.ApplyAllAbsent` | bill_generator.py:96-99 | applying the context's keys in insertion order leaves unchanged a string in which no key occurs |
| `Template.ApplyOne` | bill_generator.py:96-98 | for a one-item context, substitution is `s.replace(key, str(value))` |
| `Template.KeylessCellsUnchanged` | bill_generator.py:94-98 | filling keeps the sheet's shape and leaves unchanged every non-string cell and every string cell that holds no key |
| `Template.FileNameSettles` | bill_generator.py:92-99 | when the sheet has at least one cell and one pass over the keys leaves none in the filename, repeating the pass once per cell gives the one-pass filename |
| `Template.Workbook.constructor` | bill_generator.py:42 | a loaded workbook holds the template's cells |
| `Template.Workbook.FillTemplate` | bill_generator.py:89-101 | every cell of the sheet is replaced in place by its substitution; the saved document has the filename pattern with the keys applied once per visited cell, plus the filled grid |
| `Template.Workbook.FillRow` | bill_generator.py:95-99 | filling one row rewrites that row's cells only, and applies the context to the filename once per cell |
| `Template.ApplyContext` | bill_generator.py:96-99 | the innermost key loop turns a cell into its substitution and the filename into its one-pass substitution |
| `BillGenerator.MonthsBeforeSteps` | bill_generator.py:86 | the month of `today - relativedelta(months=k)` equals stepping back one month at a time, `k` times |
| `BillGenerator.MonthsBeforeForward` | bill_generator.py:86 | going `k` months forward from the start month returns to the current month |
| `BillGenerator.YearBeforeSteps` | bill_generator.py:86 | the year of `today - relativedelta(months=k)` equals the year reached by stepping back one month at a time, `k` times |
| `BillGenerator.BillMonthsLabel` | bill_generator.py:80-87 | the label is the current month's name when `months <= 0`; otherwise it is the name of the month `months` back, then `" - "`, then the current month's name. It raises ValueError exactly when `months > 0` and `months >= 12 * (year - 1) + month`, because the start date would fall before year 1 |
| `BillGenerator.StartBeforeYearOneSteps` | bill_generator.py:86 | the label raises exactly when stepping back `months` months from today reaches year 0 |
| `BillGenerator.IsValidMeaning` | bill_generator.py:103-113 | the row is valid iff the number, name and debt-months cells exist, are truthy, debt-months is a number and at least `DEBT_MONTHS`; the test raises iff a cell is missing or a truthy debt-months cell is a string |
| `BillGenerator.RowContextShape` | bill_generator.py:59-72 | a valid row's context has the eight keys in order. Number, name and account come from the row, the month is the label for the row's debt-months, the year is the run's, the debt strings are the formatted debt, and kopecks is `"0"`. It fails iff the debt or account column is missing, `float()` refuses the debt, or the billing period would start before year 1 |
| `BillGenerator.ExamineNeverMissingFile` | bill_generator.py:56-73 | the row loop never produces the missing-file error |
| `BillGenerator.ReadResultMissingFile` | bill_generator.py:45-49 | `read_statement` stops with the missing-file error iff no listed name ends in `.xlsx` |
| `BillGenerator.ReadResultRows` | bill_generator.py:56-73 | on success there is one context per valid row of `FIRST_ROW..LAST_ROW` in the chosen file, in row order, each the row's own context; no invalid row contributes, every valid row does, and there are at most `last - first + 1` |
| `BillGenerator.ReadResultContexts` | bill_generator.py:54-72 | every returned context has exactly the eight placeholders, kopecks `"0"` and the run's year, and keys `fill_template` accepts |
| `BillGenerator.ReadStatement` | bill_generator.py:32-74 | picks the file, walks the row range and returns what `ReadResult` specifies |
| `RunScript.IsValidMeaning` | run.py:39-46 | the row is valid iff the number and name cells exist and are truthy; it raises iff one of them lies past the row |
| `RunScript.IsValidIgnoresOtherColumns` | run.py:39-46 | two rows that agree on the number and name cells get the same verdict |
| `RunScript.RowContextShape` | run.py:65-74 | a valid row's context has the eight keys in order. Number, name, account and debt come from the row, and month, year, rubles and kopecks are `"Февраль"`, `"2021"`, `"4043"` and `"00"`. It fails iff the account or debt column is missing |
| `RunScript.ExamineNeverMissingFile` | run.py:62-75 | the row loop never produces the missing-file error |
| `RunScript.ReadResultMissingFile` | run.py:52-57 | the script stops with the missing-file error iff no listed name ends in `.xls` or `.xlsx` |
| `RunScript.ReadResultRows` | run.py:62-75 | on success the contexts are exactly those of the valid rows of `FIRST_ROW..LAST_ROW`, in row order, each the row's own, at most `last - first + 1` |
| `RunScript.ReadResultContexts` | run.py:65-74 | every context has the eight placeholders and the four fixed strings |
| `RunScript.ReadStatement` | run.py:49-77 | picks the file, walks the row range and returns what `ReadResult` specifies |
| `RunScript.FillTemplate` | run.py:25-37 | same effect as `Workbook.FillTemplate`, with the module-level filename pattern |
| `App.ReusedRun` | bill_generator.py:196-198 | one saved document per context when every record fills the grid the previous record left |
| `App.ReusedRunFillsPrevious` | bill_generator.py:196-198 | with one reused workbook, record `i` fills the grid the previous `i` records left, not the template |
| `App.SettledGridUnchanged` | bill_generator.py:94-98 | filling a grid in which no string cell holds a key of the context leaves the grid unchanged |
| `App.LaterBillsRepeatFirst` | bill_generator.py:196-198 | when the first record leaves no key of the later records in the sheet, every later bill has the first bill's cells; only its filename follows its own record |
| `App.Run` | bill_generator.py:193-198 | as written: reading errors are passed on, and otherwise the documents are those of one workbook filled again and again |
| `App.ReusedWorkbookRepeatsFirstRecord` | bill_generator.py:196-198 | with one reused workbook, a `{%имя%}` cell filled for "А" and then "Б" still reads "А" in the second bill; a fresh copy reads "Б" |
| `App.RunFresh` | bill_generator.py:193-198 | corrected: reading errors are passed on, and otherwise the i-th document is the template filled with the i-th context alone |

## Left out

- App configuration (settings file, default config, folder creation) at bill_generator.py:116-191: file I/O. Settings reach the model already parsed as integers and strings.
- `locale.setlocale` and `strftime('%B')`: month names are a 12-entry table. `relativedelta`'s day clamping is left out, since it cannot change the month. The start date's year is modelled only as far as it decides whether `date.replace` raises (a year below 1); it does not reach the label.
- Debt formatting with `"%.2f"` and `"%.f"` on a float: floating point. It is the `debtText` parameter, which also says when `float()` raises.
- Cell values other than `None`, strings and integers (floats, booleans, dates, formulas): not modelled. In particular, `int()` truncating a fractional debt-months value is not modelled.
- `column_index_from_string`: a library call, given as a parameter. Its ValueError on a malformed column letter is not modelled.
- `load_workbook`, `save`, `os.listdir`, `os.path.join`: the sheet, folder listing and template are inputs. A saved file is modelled as its name and cells. The output folder is not prefixed to the name.
- `exception()` (`print`, `input`, `sys.exit`), `PermissionError` on save, and the try/except in `App.run` and in run.py's main block: user-facing I/O and process exit. All read errors reach the caller as one `Err`.
- Row indices below 1: openpyxl refuses `statement[row_index]` for them, but the model's sheet returns a row for every index, so with `FIRST_ROW <= 0` the model describes contexts where the program raises.
- The METER_LAST / METER_PAID columns and multi-meter aggregation: they are configured but no modelled code reads them.
- Template.Workbook.FillTemplate: requires every context key to start with `{`. All contexts the readers build meet this. For other keys, Python would raise on a `None` or numeric cell whose `str()` contains the key.
- Template.FileNameSettles: the settling is shown under "one pass leaves no key in the filename". The weaker condition "no value contains a key" does not suffice, because a key can be assembled from pattern text around a replaced value.
- Template.ApplyContext: the cell's new value is written back once, after all keys, not once per key. Nothing reads the cell in between, so the result is the same.

## Findings

| source | as written | input that shows it | evidently intended | confidence | as-written member | corrected member |
|---|---|---|---|---|---|---|
| bill_generator.py:196-198 | One template workbook, loaded once (bill_generator.py:42), is filled in place for each record in turn. The first record replaces every placeholder, so each later bill carries the first customer's values and only its filename changes. run.py:99-101 does the same. | A template cell `{%имя%}` and two records named "А" and "Б": the second saved bill reads "А". | Each bill is filled from a fresh copy of the template with its own record. | high; not executed | `App.Run`, `App.LaterBillsRepeatFirst`, `App.ReusedWorkbookRepeatsFirstRecord` | `App.RunFresh` |
