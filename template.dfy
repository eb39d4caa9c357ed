/**
 * The template filler: a workbook whose first sheet is a grid of cells,
 * and `fill_template`, which replaces each placeholder of a context by its
 * value in every string cell and in the output-filename pattern.
 */
module Template {
  import opened Text
  import opened Cells

  /**
   * The keys of `ctx` replaced one after the other, in insertion order:
   * `s.replace(key, str(value))` for each item of `context.items()`.
   */
  function ApplyAll(ctx: Context, s: string): string
    decreases |ctx|
  {
    if ctx == [] then s
    else
      var e := ctx[|ctx| - 1];
      Replace(ApplyAll(ctx[..|ctx| - 1], s), e.key, Str(e.value))
  }

  predicate NoKeyIn(ctx: Context, s: string) {
    forall i :: 0 <= i < |ctx| ==> !Contains(s, ctx[i].key)
  }

  /** A string in which no key of the context occurs comes through unchanged. */
  lemma {:induction false} ApplyAllAbsent(ctx: Context, s: string)
    requires NoKeyIn(ctx, s)
    ensures ApplyAll(ctx, s) == s
    decreases |ctx|
  {
    if ctx != [] {
      var init := ctx[..|ctx| - 1];
      assert NoKeyIn(init, s) by {
        forall i | 0 <= i < |init| ensures !Contains(s, init[i].key) {
          assert init[i] == ctx[i];
        }
      }
      ApplyAllAbsent(init, s);
      ReplaceAbsent(s, ctx[|ctx| - 1].key, Str(ctx[|ctx| - 1].value));
    }
  }

  /** A single placeholder: every occurrence replaced, left to right. */
  lemma ApplyOne(k: string, v: Cell, s: string)
    ensures ApplyAll([Entry(k, v)], s) == Replace(s, k, Str(v))
  {
    assert [Entry(k, v)][..0] == [];
  }

  /** A cell after the substitution: string cells are rewritten, other cells kept. */
  function SubstituteCell(c: Cell, ctx: Context): Cell {
    if c.String? then String(ApplyAll(ctx, c.s)) else c
  }

  function SubstituteRow(row: Row, ctx: Context): (r: Row)
    ensures |r| == |row| && forall j :: 0 <= j < |row| ==> r[j] == SubstituteCell(row[j], ctx)
  {
    seq(|row|, j requires 0 <= j < |row| => SubstituteCell(row[j], ctx))
  }

  function SubstituteGrid(grid: seq<Row>, ctx: Context): (r: seq<Row>)
    ensures |r| == |grid| && forall i :: 0 <= i < |grid| ==> r[i] == SubstituteRow(grid[i], ctx)
  {
    seq(|grid|, i requires 0 <= i < |grid| => SubstituteRow(grid[i], ctx))
  }

  /**
   * The shape of the sheet is kept; a cell that is not a string, or a
   * string in which no placeholder occurs, is left exactly as it was.
   */
  lemma KeylessCellsUnchanged(grid: seq<Row>, ctx: Context, i: nat, j: nat)
    requires i < |grid| && j < |grid[i]|
    requires !grid[i][j].String? || NoKeyIn(ctx, grid[i][j].s)
    ensures |SubstituteGrid(grid, ctx)| == |grid| && |SubstituteGrid(grid, ctx)[i]| == |grid[i]|
    ensures SubstituteGrid(grid, ctx)[i][j] == grid[i][j]
  {
    if grid[i][j].String? {
      ApplyAllAbsent(ctx, grid[i][j].s);
    }
  }

  /** The number of cells `for row in sheet: for cell in row` visits. */
  function CellCount(grid: seq<Row>): nat
    decreases |grid|
  {
    if grid == [] then 0 else CellCount(grid[..|grid| - 1]) + |grid[|grid| - 1]|
  }

  /** The output filename after `n` cells: every cell applies the whole context once more. */
  function FileName(ctx: Context, n: nat, format: string): string
    decreases n
  {
    if n == 0 then format else ApplyAll(ctx, FileName(ctx, n - 1, format))
  }

  /**
   * Replacing the filename once per cell gives what a single pass gives,
   * as soon as the sheet has a cell and one pass leaves no key behind.
   */
  lemma {:induction false} FileNameSettles(ctx: Context, n: nat, format: string)
    requires n >= 1 && NoKeyIn(ctx, ApplyAll(ctx, format))
    ensures FileName(ctx, n, format) == ApplyAll(ctx, format)
    decreases n
  {
    if n > 1 {
      FileNameSettles(ctx, n - 1, format);
      ApplyAllAbsent(ctx, ApplyAll(ctx, format));
    }
  }

  /** What `template_wb.save` writes: the file name and the sheet's cells at that moment. */
  datatype Document = Document(filename: string, grid: seq<Row>)

  /** A loaded workbook; `grid` holds the cells of `worksheets[0]`, row by row. */
  class Workbook {
    var grid: seq<Row>

    /** `load_workbook` of the template file. */
    constructor (template: seq<Row>)
      ensures grid == template
    {
      grid := template;
    }

    /**
     * `fill_template`: overwrites every string cell in place and returns
     * the document that is saved under the substituted filename.
     */
    method FillTemplate(ctx: Context, format: string) returns (saved: Document)
      requires KeysWellFormed(ctx)
      modifies this
      ensures grid == SubstituteGrid(old(grid), ctx)
      ensures saved == Document(FileName(ctx, CellCount(old(grid)), format), grid)
    {
      ghost var original := grid;
      var outputFilename := format;
      var i := 0;
      while i < |grid|
        invariant 0 <= i <= |grid| == |original|
        invariant forall r :: 0 <= r < i ==> grid[r] == SubstituteRow(original[r], ctx)
        invariant forall r :: i <= r < |grid| ==> grid[r] == original[r]
        invariant outputFilename == FileName(ctx, CellCount(original[..i]), format)
      {
        FileNameAdd(ctx, CellCount(original[..i]), |original[i]|, format);
        outputFilename := FillRow(i, ctx, outputFilename);
        assert original[..i + 1][..i] == original[..i];
        i := i + 1;
      }
      assert original[..|original|] == original;
      saved := Document(outputFilename, grid);
    }

    /** The cells of row `i`, one after the other, left to right. */
    method FillRow(i: nat, ctx: Context, name: string) returns (outputFilename: string)
      requires i < |grid| && KeysWellFormed(ctx)
      modifies this
      ensures grid == old(grid)[i := SubstituteRow(old(grid)[i], ctx)]
      ensures outputFilename == FileName(ctx, |old(grid)[i]|, name)
    {
      ghost var original := grid;
      outputFilename := name;
      var j := 0;
      while j < |grid[i]|
        invariant |grid| == |original| && |grid[i]| == |original[i]|
        invariant 0 <= j <= |grid[i]|
        invariant forall r :: 0 <= r < |grid| && r != i ==> grid[r] == original[r]
        invariant forall c :: 0 <= c < j ==> grid[i][c] == SubstituteCell(original[i][c], ctx)
        invariant forall c :: j <= c < |grid[i]| ==> grid[i][c] == original[i][c]
        invariant outputFilename == FileName(ctx, j, name)
        decreases |original[i]| - j
      {
        var cell;
        cell, outputFilename := ApplyContext(grid[i][j], ctx, outputFilename);
        grid := grid[i := grid[i][j := cell]];
        j := j + 1;
      }
      assert grid[i] == SubstituteRow(original[i], ctx);
      assert grid == original[i := SubstituteRow(original[i], ctx)];
    }
  }

  /**
   * The innermost loop, for one cell: each key in turn, replaced in the
   * cell when `key in str(cell.value)` and in the filename in any case.
   */
  method ApplyContext(cell: Cell, ctx: Context, name: string) returns (result: Cell, outputFilename: string)
    requires KeysWellFormed(ctx)
    ensures result == SubstituteCell(cell, ctx)
    ensures outputFilename == ApplyAll(ctx, name)
  {
    result, outputFilename := cell, name;
    var k := 0;
    while k < |ctx|
      invariant 0 <= k <= |ctx|
      invariant result == SubstituteCell(cell, ctx[..k])
      invariant outputFilename == ApplyAll(ctx[..k], name)
    {
      var key, value := ctx[k].key, ctx[k].value;
      StepCell(cell, ctx, k);
      if Contains(Str(result), key) {
        result := String(Replace(result.s, key, Str(value)));
      }
      assert ctx[..k + 1][..k] == ctx[..k];
      outputFilename := Replace(outputFilename, key, Str(value));
      k := k + 1;
    }
    assert ctx[..|ctx|] == ctx;
  }

  lemma {:induction false} FileNameAdd(ctx: Context, a: nat, b: nat, format: string)
    ensures FileName(ctx, b, FileName(ctx, a, format)) == FileName(ctx, a + b, format)
    decreases b
  {
    if b > 0 {
      FileNameAdd(ctx, a, b - 1, format);
    }
  }

  /** One key of the context applied to a cell: the step the innermost loop takes. */
  lemma StepCell(c: Cell, ctx: Context, k: nat)
    requires k < |ctx| && KeysWellFormed(ctx)
    ensures var cur := SubstituteCell(c, ctx[..k]);
      var key := ctx[k].key;
      && (cur.String? || !Contains(Str(cur), key))
      && SubstituteCell(c, ctx[..k + 1])
         == if Contains(Str(cur), key) then String(Replace(cur.s, key, Str(ctx[k].value))) else cur
  {
    var cur := SubstituteCell(c, ctx[..k]);
    var key := ctx[k].key;
    assert ctx[..k + 1][..k] == ctx[..k];
    if c.String? {
      if !Contains(cur.s, key) {
        ReplaceAbsent(cur.s, key, Str(ctx[k].value));
      }
    } else {
      PlainValueHasNoKey(c, key);
    }
  }
}
