/**
 * `App.run` of bill_generator.py: read the statement, then fill the
 * template once per context. As written, one template workbook is loaded
 * and filled again and again; `RunFresh` fills a fresh copy per record.
 */
module App {
  import opened Wrappers
  import opened Cells
  import opened Statement
  import opened Template
  import BillGenerator

  /** What filling a fresh copy of `template` with `ctx` saves. */
  function Bill(template: seq<Row>, ctx: Context, format: string): Document {
    Document(FileName(ctx, CellCount(template), format), SubstituteGrid(template, ctx))
  }

  /** The documents saved when every record fills the grid the previous record left. */
  function ReusedRun(grid: seq<Row>, contexts: seq<Context>, format: string): (docs: seq<Document>)
    ensures |docs| == |contexts|
    decreases |contexts|
  {
    if contexts == [] then []
    else [Bill(grid, contexts[0], format)] + ReusedRun(SubstituteGrid(grid, contexts[0]), contexts[1..], format)
  }

  /** The cells of the reused workbook after the first `n` records have been filled in. */
  function FilledGrid(grid: seq<Row>, contexts: seq<Context>, n: nat): seq<Row>
    requires n <= |contexts|
    decreases n
  {
    if n == 0 then grid else SubstituteGrid(FilledGrid(grid, contexts, n - 1), contexts[n - 1])
  }

  /** Filling the first record, then the rest, is filling them all. */
  lemma {:induction false} FilledGridShift(grid: seq<Row>, contexts: seq<Context>, n: nat)
    requires n < |contexts|
    ensures FilledGrid(SubstituteGrid(grid, contexts[0]), contexts[1..], n) == FilledGrid(grid, contexts, n + 1)
    decreases n
  {
    if n > 0 {
      FilledGridShift(grid, contexts, n - 1);
      assert contexts[1..][n - 1] == contexts[n];
    }
  }

  /**
   * With the reused workbook, record `i` fills the grid the records before
   * it left behind, not the template.
   */
  lemma {:induction false} ReusedRunFillsPrevious(grid: seq<Row>, contexts: seq<Context>, format: string, i: nat)
    requires i < |contexts|
    ensures ReusedRun(grid, contexts, format)[i] == Bill(FilledGrid(grid, contexts, i), contexts[i], format)
    decreases i
  {
    if i > 0 {
      var first := SubstituteGrid(grid, contexts[0]);
      ReusedRunFillsPrevious(first, contexts[1..], format, i - 1);
      FilledGridShift(grid, contexts, i - 1);
      assert contexts[1..][i - 1] == contexts[i];
    }
  }

  /** No string cell of `grid` holds a key of `ctx`. */
  predicate Settled(grid: seq<Row>, ctx: Context) {
    forall i, j :: 0 <= i < |grid| && 0 <= j < |grid[i]| && grid[i][j].String? ==> NoKeyIn(ctx, grid[i][j].s)
  }

  lemma SettledGridUnchanged(grid: seq<Row>, ctx: Context)
    requires Settled(grid, ctx)
    ensures SubstituteGrid(grid, ctx) == grid
  {
    forall i, j | 0 <= i < |grid| && 0 <= j < |grid[i]|
      ensures SubstituteGrid(grid, ctx)[i][j] == grid[i][j]
    {
      KeylessCellsUnchanged(grid, ctx, i, j);
    }
    forall i | 0 <= i < |grid| ensures SubstituteGrid(grid, ctx)[i] == grid[i] {
      assert |SubstituteGrid(grid, ctx)[i]| == |grid[i]|;
    }
  }

  /** Once the first record has filled every key the later records use, the grid stays as it is. */
  lemma {:induction false} FilledGridStays(grid: seq<Row>, contexts: seq<Context>, n: nat)
    requires 1 <= n <= |contexts|
    requires forall k :: 1 <= k < |contexts| ==> Settled(SubstituteGrid(grid, contexts[0]), contexts[k])
    ensures FilledGrid(grid, contexts, n) == SubstituteGrid(grid, contexts[0])
    decreases n
  {
    if n > 1 {
      FilledGridStays(grid, contexts, n - 1);
      SettledGridUnchanged(SubstituteGrid(grid, contexts[0]), contexts[n - 1]);
    }
  }

  /**
   * As written, every bill after the first carries the first bill's cells
   * whenever the first record leaves no key of the later records in the
   * sheet; only the filename follows the later record.
   */
  lemma LaterBillsRepeatFirst(grid: seq<Row>, contexts: seq<Context>, format: string, i: nat)
    requires 1 <= i < |contexts|
    requires forall k :: 1 <= k < |contexts| ==> Settled(SubstituteGrid(grid, contexts[0]), contexts[k])
    ensures ReusedRun(grid, contexts, format)[i].grid == ReusedRun(grid, contexts, format)[0].grid
    ensures ReusedRun(grid, contexts, format)[i].filename
         == FileName(contexts[i], CellCount(SubstituteGrid(grid, contexts[0])), format)
  {
    ReusedRunFillsPrevious(grid, contexts, format, i);
    ReusedRunFillsPrevious(grid, contexts, format, 0);
    FilledGridStays(grid, contexts, i);
    SettledGridUnchanged(SubstituteGrid(grid, contexts[0]), contexts[i]);
  }

  /** `App.run` as written: the workbook from `read_statement` is reused for every record. */
  method Run(cfg: BillGenerator.Config, host: BillGenerator.Host, template: seq<Row>, format: string)
    returns (r: Result<seq<Document>, Error>)
    ensures var read := BillGenerator.ReadResult(cfg, host);
      r == if read.Err? then Err(read.error) else Ok(ReusedRun(template, read.value, format))
  {
    var templateWb := new Workbook(template);
    var billData := BillGenerator.ReadStatement(cfg, host);
    if billData.Err? {
      return Err(billData.error);
    }
    var contexts := billData.value;
    BillGenerator.ReadResultContexts(cfg, host, contexts);
    var docs: seq<Document> := [];
    var i := 0;
    while i < |contexts|
      invariant 0 <= i <= |contexts|
      invariant docs + ReusedRun(templateWb.grid, contexts[i..], format) == ReusedRun(template, contexts, format)
    {
      ghost var grid := templateWb.grid;
      var saved := templateWb.FillTemplate(contexts[i], format);
      ReusedRunStep(grid, contexts, format, i);
      assert docs + [saved] + ReusedRun(templateWb.grid, contexts[i + 1..], format)
          == docs + ([saved] + ReusedRun(templateWb.grid, contexts[i + 1..], format));
      docs := docs + [saved];
      i := i + 1;
    }
    assert docs + [] == docs;
    return Ok(docs);
  }

  /** One record of the reused run: its bill, then the rest filled on its result. */
  lemma ReusedRunStep(grid: seq<Row>, contexts: seq<Context>, format: string, i: nat)
    requires i < |contexts|
    ensures ReusedRun(grid, contexts[i..], format)
         == [Bill(grid, contexts[i], format)] + ReusedRun(SubstituteGrid(grid, contexts[i]), contexts[i + 1..], format)
  {
    assert contexts[i..][1..] == contexts[i + 1..];
  }

  /**
   * With the reused workbook the second bill shows the first customer:
   * a template cell `{%имя%}` filled for "А" and then for "Б" still reads
   * "А" in the second document, where a fresh copy reads "Б".
   */
  lemma ReusedWorkbookRepeatsFirstRecord()
    ensures var template := [[String(Placeholders[1])]];
      var first := [Entry(Placeholders[1], String("А"))];
      var second := [Entry(Placeholders[1], String("Б"))];
      && ReusedRun(template, [first, second], "")[1].grid == [[String("А")]]
      && Bill(template, second, "").grid == [[String("Б")]]
  {
    var k := Placeholders[1];
    var template := [[String(k)]];
    var first := [Entry(k, String("А"))];
    var second := [Entry(k, String("Б"))];
    ReplaceWhole(k, "А");
    ReplaceWhole(k, "Б");
    ApplyOne(k, String("А"), k);
    ApplyOne(k, String("Б"), k);
    ApplyOne(k, String("Б"), "А");
    Text.ReplaceAbsent("А", k, "Б");
    assert SubstituteRow([String(k)], first) == [String("А")];
    assert SubstituteGrid(template, first) == [[String("А")]];
    assert [first, second][1..] == [second];
    assert SubstituteRow([String("А")], second) == [String("А")];
    assert SubstituteRow([String(k)], second) == [String("Б")];
  }

  lemma ReplaceWhole(k: string, v: string)
    requires |k| > 0
    ensures Text.Replace(k, k, v) == v
  {
    assert k[..|k|] == k && k[|k|..] == [];
  }

  /**
   * `App.run` with the template reloaded for every record: the i-th saved
   * document is the template filled with the i-th context alone.
   */
  method RunFresh(cfg: BillGenerator.Config, host: BillGenerator.Host, template: seq<Row>, format: string)
    returns (r: Result<seq<Document>, Error>)
    ensures var read := BillGenerator.ReadResult(cfg, host);
      && (read.Err? ==> r == Err(read.error))
      && (read.Ok? ==>
            && r.Ok? && |r.value| == |read.value|
            && (forall i :: 0 <= i < |read.value| ==> r.value[i] == Bill(template, read.value[i], format)))
  {
    var billData := BillGenerator.ReadStatement(cfg, host);
    if billData.Err? {
      return Err(billData.error);
    }
    var contexts := billData.value;
    BillGenerator.ReadResultContexts(cfg, host, contexts);
    var docs: seq<Document> := [];
    var i := 0;
    while i < |contexts|
      invariant 0 <= i <= |contexts| && |docs| == i
      invariant forall j :: 0 <= j < i ==> docs[j] == Bill(template, contexts[j], format)
    {
      var templateWb := new Workbook(template);
      var saved := templateWb.FillTemplate(contexts[i], format);
      docs := docs + [saved];
      i := i + 1;
    }
    return Ok(docs);
  }
}
