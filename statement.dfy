/**
 * What both statement readers share: choosing the statement file from a
 * folder listing, addressing a cell by column letter, and the scan of the
 * configured row range that keeps one context per accepted row.
 */
module Statement {
  import opened Wrappers
  import opened Cells

  /** Why reading the statement stopped. */
  datatype Error =
    | NoStatementFile          // the folder holds no file with an accepted extension
    | ColumnOutOfRange(col: nat) // `row[i]` past the end of the row tuple (IndexError)
    | DebtMonthsNotComparable  // a string debt-months cell compared with an `int` (TypeError)
    | DebtNotNumber            // `float()` refused the debt cell
    | StartBeforeYearOne       // the billing period would start before year 1 (ValueError)

  /** `statement[row_index]`: the cells of a (1-based) sheet row, as openpyxl returns them. */
  type Sheet = int -> Row

  /** What `column_index_from_string` returns: a one-based column number. */
  type ColumnNumber = n: int | n >= 1 witness 1

  /** `get_col_index`: the zero-based position of the column named by `letter`. */
  function GetColIndex(columnIndex: string -> ColumnNumber, letter: string): nat {
    columnIndex(letter) - 1
  }

  /** `row[i]`, which raises IndexError past the end of the row. */
  function CellAt(row: Row, i: nat): Result<Cell, Error> {
    if i < |row| then Ok(row[i]) else Err(ColumnOutOfRange(i))
  }

  // ---------------------------------------------------------------- file choice

  /** `[file for file in listing if accept(file)]`. */
  function Filter(listing: seq<string>, accept: string -> bool): (r: seq<string>)
    ensures forall i :: 0 <= i < |r| ==> accept(r[i])
    ensures forall i :: 0 <= i < |r| ==> r[i] in listing
    ensures forall i :: 0 <= i < |listing| && accept(listing[i]) ==> listing[i] in r
    ensures |r| <= |listing|
    decreases |listing|
  {
    if listing == [] then []
    else (if accept(listing[0]) then [listing[0]] else []) + Filter(listing[1..], accept)
  }

  /**
   * The comprehension keeps the listing's order: filtering two parts one
   * after the other gives the filtered parts one after the other.
   */
  lemma {:induction false} FilterKeepsOrder(a: seq<string>, b: seq<string>, accept: string -> bool)
    ensures Filter(a + b, accept) == Filter(a, accept) + Filter(b, accept)
    decreases |a|
  {
    if a != [] {
      assert (a + b)[0] == a[0];
      assert (a + b)[1..] == a[1..] + b;
      FilterKeepsOrder(a[1..], b, accept);
    } else {
      assert a + b == b;
    }
  }

  /** `statement_files[0]`, or the "no files in the folder" exit when the list is empty. */
  function PickFirst(listing: seq<string>, accept: string -> bool): Result<string, Error> {
    var files := Filter(listing, accept);
    if |files| == 0 then Err(NoStatementFile) else Ok(files[0])
  }

  /** The comprehension is empty exactly when no listed name is accepted. */
  lemma {:induction false} FilterEmpty(listing: seq<string>, accept: string -> bool)
    ensures Filter(listing, accept) == [] <==> forall i :: 0 <= i < |listing| ==> !accept(listing[i])
    decreases |listing|
  {
    if listing != [] {
      var rest := listing[1..];
      FilterEmpty(rest, accept);
      if !accept(listing[0]) {
        assert Filter(listing, accept) == Filter(rest, accept);
        if Filter(rest, accept) == [] {
          forall i | 0 <= i < |listing| ensures !accept(listing[i]) {
            if i > 0 { assert listing[i] == rest[i - 1]; }
          }
        }
      }
    }
  }

  /** The head of a non-empty comprehension is the first accepted name of the listing. */
  lemma {:induction false} FilterHead(listing: seq<string>, accept: string -> bool)
    requires Filter(listing, accept) != []
    ensures exists i :: 0 <= i < |listing| && listing[i] == Filter(listing, accept)[0]
                        && accept(listing[i]) && forall j :: 0 <= j < i ==> !accept(listing[j])
    decreases |listing|
  {
    var rest := listing[1..];
    if accept(listing[0]) {
      assert Filter(listing, accept)[0] == listing[0];
    } else {
      assert Filter(listing, accept) == Filter(rest, accept);
      FilterHead(rest, accept);
      var i :| 0 <= i < |rest| && rest[i] == Filter(rest, accept)[0]
               && accept(rest[i]) && forall j :: 0 <= j < i ==> !accept(rest[j]);
      assert listing[i + 1] == rest[i];
      forall j | 0 <= j < i + 1 ensures !accept(listing[j]) {
        if j > 0 { assert listing[j] == rest[j - 1]; }
      }
    }
  }

  /**
   * The statement file is the first listed name the extension test accepts;
   * there is none exactly when no listed name is accepted.
   */
  lemma PickFirstIsFirstAccepted(listing: seq<string>, accept: string -> bool)
    ensures PickFirst(listing, accept).Err? <==> forall i :: 0 <= i < |listing| ==> !accept(listing[i])
    ensures PickFirst(listing, accept).Err? ==> PickFirst(listing, accept).error == NoStatementFile
    ensures PickFirst(listing, accept).Ok? ==>
              exists i :: 0 <= i < |listing| && listing[i] == PickFirst(listing, accept).value
                          && accept(listing[i]) && forall j :: 0 <= j < i ==> !accept(listing[j])
  {
    FilterEmpty(listing, accept);
    if Filter(listing, accept) != [] {
      FilterHead(listing, accept);
    }
  }

  // ---------------------------------------------------------------- row scan

  /** Looks at one row: the exception it raises, no context (an invalid row), or its context. */
  type Examiner = Row -> Result<Option<Context>, Error>

  /** Puts `acc` in front of the contexts of a scan that did not fail. */
  function Prefixed(acc: seq<Context>, r: Result<seq<Context>, Error>): Result<seq<Context>, Error> {
    match r
    case Ok(cs) => Ok(acc + cs)
    case Err(e) => Err(e)
  }

  lemma PrefixedNothing(r: Result<seq<Context>, Error>)
    ensures Prefixed([], r) == r
  {
    if r.Ok? { assert [] + r.value == r.value; }
  }

  lemma PrefixedTwice(a: seq<Context>, b: seq<Context>, r: Result<seq<Context>, Error>)
    ensures Prefixed(a, Prefixed(b, r)) == Prefixed(a + b, r)
  {
    if r.Ok? { assert a + (b + r.value) == a + b + r.value; }
  }

  /**
   * The loop `for row_index in range(from, last + 1)` as a value: the
   * contexts of the accepted rows in row order, or the first exception.
   */
  function Scan(examine: Examiner, sheet: Sheet, from: int, last: int): Result<seq<Context>, Error>
    decreases last + 1 - from
  {
    if from > last then Ok([])
    else match examine(sheet(from))
      case Err(e) => Err(e)
      case Ok(None) => Scan(examine, sheet, from + 1, last)
      case Ok(Some(c)) => Prefixed([c], Scan(examine, sheet, from + 1, last))
  }

  predicate Accepted(examine: Examiner, sheet: Sheet, r: int) {
    examine(sheet(r)).Ok? && examine(sheet(r)).value.Some?
  }

  /** The indices of the accepted rows in `from..last`, in increasing order. */
  function Kept(examine: Examiner, sheet: Sheet, from: int, last: int): seq<int>
    decreases last + 1 - from
  {
    if from > last then []
    else (if Accepted(examine, sheet, from) then [from] else []) + Kept(examine, sheet, from + 1, last)
  }

  /**
   * The kept rows are exactly the accepted rows of `from..last`, each once,
   * in increasing order, so there are never more than the range holds.
   */
  lemma {:induction false} KeptRows(examine: Examiner, sheet: Sheet, from: int, last: int)
    ensures var ks := Kept(examine, sheet, from, last);
      && (forall i :: 0 <= i < |ks| ==> from <= ks[i] <= last && Accepted(examine, sheet, ks[i]))
      && (forall i, j :: 0 <= i < j < |ks| ==> ks[i] < ks[j])
      && (forall r :: from <= r <= last && Accepted(examine, sheet, r) ==> r in ks)
      && |ks| <= if from <= last then last - from + 1 else 0
    decreases last + 1 - from
  {
    if from <= last {
      KeptRows(examine, sheet, from + 1, last);
    }
  }

  /**
   * A scan that succeeds met no exception in the range and returns one
   * context per kept row, the one that row produced, in row order.
   */
  lemma {:induction false} ScanOk(examine: Examiner, sheet: Sheet, from: int, last: int, cs: seq<Context>)
    requires Scan(examine, sheet, from, last) == Ok(cs)
    ensures forall r :: from <= r <= last ==> examine(sheet(r)).Ok?
    ensures var ks := Kept(examine, sheet, from, last);
      |cs| == |ks| && forall i :: 0 <= i < |cs| ==> examine(sheet(ks[i])) == Ok(Some(cs[i]))
    decreases last + 1 - from
  {
    if from <= last {
      var ks := Kept(examine, sheet, from, last);
      var tail := Kept(examine, sheet, from + 1, last);
      match examine(sheet(from))
      case Ok(None) =>
        ScanOk(examine, sheet, from + 1, last, cs);
        assert ks == tail;
      case Ok(Some(c)) =>
        var rest := cs[1..];
        assert Scan(examine, sheet, from + 1, last) == Ok(rest);
        ScanOk(examine, sheet, from + 1, last, rest);
        assert ks == [from] + tail;
        forall i | 0 <= i < |cs| ensures examine(sheet(ks[i])) == Ok(Some(cs[i])) {
          if i > 0 { assert ks[i] == tail[i - 1] && cs[i] == rest[i - 1]; }
        }
    }
  }

  /**
   * A scan fails exactly when some row of the range raises, and then with
   * the exception of the first row that raises: the loop stops there.
   */
  lemma {:induction false} ScanErr(examine: Examiner, sheet: Sheet, from: int, last: int)
    ensures Scan(examine, sheet, from, last).Err? <==>
              exists r :: from <= r <= last && examine(sheet(r)).Err?
    ensures Scan(examine, sheet, from, last).Err? ==>
              exists r :: from <= r <= last && examine(sheet(r)) == Err(Scan(examine, sheet, from, last).error)
                          && forall q :: from <= q < r ==> examine(sheet(q)).Ok?
    decreases last + 1 - from
  {
    if from <= last {
      ScanErr(examine, sheet, from + 1, last);
      var s := Scan(examine, sheet, from, last);
      if s.Err? && examine(sheet(from)).Ok? {
        var r :| from + 1 <= r <= last && examine(sheet(r)) == Err(Scan(examine, sheet, from + 1, last).error)
                 && forall q :: from + 1 <= q < r ==> examine(sheet(q)).Ok?;
        assert forall q :: from <= q < r ==> examine(sheet(q)).Ok?;
      }
    }
  }

  /** The row loop of `read_statement`: appends a context for every accepted row. */
  method ReadRows(examine: Examiner, sheet: Sheet, first: int, last: int)
    returns (r: Result<seq<Context>, Error>)
    ensures r == Scan(examine, sheet, first, last)
  {
    var contexts: seq<Context> := [];
    var rowIndex := first;
    PrefixedNothing(Scan(examine, sheet, first, last));
    while rowIndex <= last
      invariant rowIndex <= last + 1 || rowIndex == first
      invariant Scan(examine, sheet, first, last) == Prefixed(contexts, Scan(examine, sheet, rowIndex, last))
      decreases last + 1 - rowIndex
    {
      var row := sheet(rowIndex);
      match examine(row) {
        case Err(e) =>
          return Err(e);
        case Ok(None) =>
        case Ok(Some(context)) =>
          PrefixedTwice(contexts, [context], Scan(examine, sheet, rowIndex + 1, last));
          contexts := contexts + [context];
      }
      rowIndex := rowIndex + 1;
    }
    assert contexts + [] == contexts;
    r := Ok(contexts);
  }
}
