/** The CPU side of the renderer: how many cells fit a pixel region, and
    how the cells of the panes become the positioned characters handed to
    the text pipeline. The atlas supplies the cell size and the ascent;
    the GPU passes are outside this model. */
module Renderer {
  import opened Ints
  import opened Quads
  import opened TextPipeline

  /** One cell of a pane's grid. */
  datatype RenderCell = RenderCell(c: char, fg: Rgba, bg: Rgba)

  /** A pane to draw: its pixel offset and its rows of cells. */
  datatype PaneCells = PaneCells(xOffset: real, yOffset: real, cells: seq<seq<RenderCell>>)

  /** `(px as f32 / cell).floor() as u16`, then at least one. The cast
      saturates: an infinite quotient (a zero cell size) gives `u16::MAX`,
      and a quotient that is not a number (0 / 0) or negative gives 0. */
  function CellsAcross(px: nat, cell: real): (n: nat)
    ensures 1 <= n <= U16_MAX
  {
    var q := if cell > 0.0 then SatU16((px as real / cell).Floor)
             else if cell == 0.0 && px > 0 then U16_MAX
             else 0;
    Max(1, q)
  }

  /** `grid_size_for_region` (and `grid_size`, which applies it to the
      window size): the columns and rows of whole cells in the region. */
  function GridSizeForRegion(widthPx: nat, heightPx: nat, cellW: real, cellH: real): (size: (nat, nat))
    ensures size == (CellsAcross(widthPx, cellW), CellsAcross(heightPx, cellH))
    ensures 1 <= size.0 <= U16_MAX && 1 <= size.1 <= U16_MAX
  {
    (CellsAcross(widthPx, cellW), CellsAcross(heightPx, cellH))
  }

  /** With a positive cell size the count is the number of whole cells that
      fit: they fit unless the minimum of one applies, and another would
      not fit unless the count saturated. */
  lemma CellsFit(px: nat, cell: real)
    requires cell > 0.0
    ensures var n := CellsAcross(px, cell);
            && (n == 1 || n as real * cell <= px as real)
            && (n < U16_MAX ==> px as real < (n + 1) as real * cell)
            && (px as real >= cell && px as real < U16_MAX as real * cell ==> n as real * cell <= px as real)
  {
    var k := (px as real / cell).Floor;
    var n := CellsAcross(px, cell);
    FloorBounds(px as real, cell, k);
    if k == 0 {
      assert n == 1;
      MulMonotone(1.0, 2.0, cell);
    } else if k < U16_MAX {
      assert n == k;
    } else {
      assert n == U16_MAX;
      MulMonotone(U16_MAX as real, k as real, cell);
    }
    if px as real >= cell {
      DivAtLeastOne(px as real, cell);
    }
    if px as real < U16_MAX as real * cell {
      DivBelow(px as real, cell, U16_MAX as real);
    }
  }

  /** The whole cells in `p`: `k` fit and `k + 1` do not. */
  lemma FloorBounds(p: real, c: real, k: int)
    requires c > 0.0 && p >= 0.0 && k == (p / c).Floor
    ensures 0 <= k
    ensures k as real * c <= p
    ensures p < (k + 1) as real * c
  {
    var q := p / c;
    DivMul(p, c);
    Between(q, k, c, p);
  }

  lemma DivMul(p: real, c: real)
    requires c > 0.0
    ensures (p / c) * c == p
  {
  }

  lemma Between(q: real, k: int, c: real, p: real)
    requires c > 0.0 && q * c == p && k as real <= q < (k + 1) as real
    ensures k as real * c <= p < (k + 1) as real * c
  {
    MulMonotone(k as real, q, c);
    MulStrict(q, (k + 1) as real, c);
  }

  lemma MulMonotone(a: real, b: real, c: real)
    requires a <= b && c > 0.0
    ensures a * c <= b * c
  {
  }

  lemma MulStrict(a: real, b: real, c: real)
    requires a < b && c > 0.0
    ensures a * c < b * c
  {
  }

  lemma DivAtLeastOne(a: real, c: real)
    requires c > 0.0 && a >= c
    ensures a / c >= 1.0
  {
  }

  lemma DivBelow(a: real, c: real, m: real)
    requires c > 0.0 && a < m * c
    ensures a / c < m
  {
  }

  /** A cell that draws nothing. */
  predicate Blank(c: char) {
    c == ' ' || c == '\0'
  }

  /** The character drawn for the cell at column `col` of a row: at
      `xOffset + col * cellW` on the row's baseline, in its foreground colour. */
  function CellItem(cell: RenderCell, col: nat, xOffset: real, baseline: real, cellW: real): TextItem {
    TextItem(cell.c, xOffset + col as real * cellW, baseline, cell.fg)
  }

  /** The characters of one row, in column order: one per cell that is not
      blank. */
  function RowItems(row: seq<RenderCell>, xOffset: real, baseline: real, cellW: real): (items: seq<TextItem>)
    ensures |items| <= |row|
  {
    if row == [] then []
    else
      var col := |row| - 1;
      RowItems(row[..col], xOffset, baseline, cellW)
        + (if Blank(row[col].c) then [] else [CellItem(row[col], col, xOffset, baseline, cellW)])
  }

  /** The baseline of row `r` of a pane at `yOffset`. */
  function Baseline(yOffset: real, r: nat, cellH: real, ascent: real): real {
    yOffset + r as real * cellH + ascent
  }

  /** The characters of one pane, in row order. */
  function GridItems(cells: seq<seq<RenderCell>>, xOffset: real, yOffset: real, cellW: real, cellH: real, ascent: real): seq<TextItem> {
    if cells == [] then []
    else
      var r := |cells| - 1;
      GridItems(cells[..r], xOffset, yOffset, cellW, cellH, ascent)
        + RowItems(cells[r], xOffset, Baseline(yOffset, r, cellH, ascent), cellW)
  }

  /** The characters of all panes, in pane order. */
  function PanesItems(panes: seq<PaneCells>, cellW: real, cellH: real, ascent: real): seq<TextItem> {
    if panes == [] then []
    else
      var p := panes[|panes| - 1];
      PanesItems(panes[..|panes| - 1], cellW, cellH, ascent)
        + GridItems(p.cells, p.xOffset, p.yOffset, cellW, cellH, ascent)
  }

  /** Every cell that is not blank is drawn. */
  lemma {:induction false} CellDrawn(row: seq<RenderCell>, xOffset: real, baseline: real, cellW: real, col: nat)
    requires col < |row| && !Blank(row[col].c)
    ensures CellItem(row[col], col, xOffset, baseline, cellW) in RowItems(row, xOffset, baseline, cellW)
  {
    var n := |row| - 1;
    if col < n {
      assert row[..n][col] == row[col];
      CellDrawn(row[..n], xOffset, baseline, cellW, col);
    }
  }

  /** Every character drawn for a row is that of one of its non-blank cells. */
  lemma {:induction false} DrawnIsCell(row: seq<RenderCell>, xOffset: real, baseline: real, cellW: real, it: TextItem)
    requires it in RowItems(row, xOffset, baseline, cellW)
    ensures exists col :: 0 <= col < |row| && !Blank(row[col].c) && it == CellItem(row[col], col, xOffset, baseline, cellW)
  {
    var n := |row| - 1;
    if it in RowItems(row[..n], xOffset, baseline, cellW) {
      DrawnIsCell(row[..n], xOffset, baseline, cellW, it);
      var col :| 0 <= col < n && !Blank(row[..n][col].c) && it == CellItem(row[..n][col], col, xOffset, baseline, cellW);
      assert row[..n][col] == row[col];
    } else {
      assert !Blank(row[n].c) && it == CellItem(row[n], n, xOffset, baseline, cellW);
    }
  }

  /** Every row of a pane is drawn, on its own baseline. */
  lemma {:induction false} RowDrawn(cells: seq<seq<RenderCell>>, xOffset: real, yOffset: real,
                                    cellW: real, cellH: real, ascent: real, r: nat, it: TextItem)
    requires r < |cells| && it in RowItems(cells[r], xOffset, Baseline(yOffset, r, cellH, ascent), cellW)
    ensures it in GridItems(cells, xOffset, yOffset, cellW, cellH, ascent)
  {
    var n := |cells| - 1;
    if r < n {
      assert cells[..n][r] == cells[r];
      RowDrawn(cells[..n], xOffset, yOffset, cellW, cellH, ascent, r, it);
    }
  }

  /** Every character drawn for a pane belongs to one of its rows. */
  lemma {:induction false} DrawnInRow(cells: seq<seq<RenderCell>>, xOffset: real, yOffset: real,
                                      cellW: real, cellH: real, ascent: real, it: TextItem)
    requires it in GridItems(cells, xOffset, yOffset, cellW, cellH, ascent)
    ensures exists r :: 0 <= r < |cells| && it in RowItems(cells[r], xOffset, Baseline(yOffset, r, cellH, ascent), cellW)
  {
    var n := |cells| - 1;
    if it in GridItems(cells[..n], xOffset, yOffset, cellW, cellH, ascent) {
      DrawnInRow(cells[..n], xOffset, yOffset, cellW, cellH, ascent, it);
      var r :| 0 <= r < n && it in RowItems(cells[..n][r], xOffset, Baseline(yOffset, r, cellH, ascent), cellW);
      assert cells[..n][r] == cells[r];
    }
  }

  /** Every character drawn belongs to one of the panes. */
  lemma {:induction false} DrawnInPane(panes: seq<PaneCells>, cellW: real, cellH: real, ascent: real, it: TextItem)
    requires it in PanesItems(panes, cellW, cellH, ascent)
    ensures exists p :: 0 <= p < |panes|
                        && it in GridItems(panes[p].cells, panes[p].xOffset, panes[p].yOffset, cellW, cellH, ascent)
  {
    var n := |panes| - 1;
    if it in PanesItems(panes[..n], cellW, cellH, ascent) {
      DrawnInPane(panes[..n], cellW, cellH, ascent, it);
      var p :| 0 <= p < n && it in GridItems(panes[..n][p].cells, panes[..n][p].xOffset, panes[..n][p].yOffset, cellW, cellH, ascent);
      assert panes[..n][p] == panes[p];
    }
  }

  /** Blank cells never reach the text pipeline. */
  lemma NoBlankItems(panes: seq<PaneCells>, cellW: real, cellH: real, ascent: real, it: TextItem)
    requires it in PanesItems(panes, cellW, cellH, ascent)
    ensures !Blank(it.c)
  {
    DrawnInPane(panes, cellW, cellH, ascent, it);
    var p :| 0 <= p < |panes| && it in GridItems(panes[p].cells, panes[p].xOffset, panes[p].yOffset, cellW, cellH, ascent);
    var pane := panes[p];
    DrawnInRow(pane.cells, pane.xOffset, pane.yOffset, cellW, cellH, ascent, it);
    var r :| 0 <= r < |pane.cells| && it in RowItems(pane.cells[r], pane.xOffset, Baseline(pane.yOffset, r, cellH, ascent), cellW);
    DrawnIsCell(pane.cells[r], pane.xOffset, Baseline(pane.yOffset, r, cellH, ascent), cellW, it);
  }

  /** Every character drawn for one pane is drawn for the panes. */
  lemma {:induction false} PaneDrawn(panes: seq<PaneCells>, cellW: real, cellH: real, ascent: real, p: nat, it: TextItem)
    requires p < |panes| && it in GridItems(panes[p].cells, panes[p].xOffset, panes[p].yOffset, cellW, cellH, ascent)
    ensures it in PanesItems(panes, cellW, cellH, ascent)
  {
    var n := |panes| - 1;
    if p < n {
      assert panes[..n][p] == panes[p];
      PaneDrawn(panes[..n], cellW, cellH, ascent, p, it);
    }
  }

  /** Every cell that is not blank, in any row of any pane, is drawn at its
      column on its row's baseline, in its foreground colour. */
  lemma EveryCellDrawn(panes: seq<PaneCells>, cellW: real, cellH: real, ascent: real, p: nat, r: nat, col: nat)
    requires p < |panes| && r < |panes[p].cells| && col < |panes[p].cells[r]|
    requires !Blank(panes[p].cells[r][col].c)
    ensures CellItem(panes[p].cells[r][col], col, panes[p].xOffset, Baseline(panes[p].yOffset, r, cellH, ascent), cellW)
            in PanesItems(panes, cellW, cellH, ascent)
  {
    var pane := panes[p];
    var baseline := Baseline(pane.yOffset, r, cellH, ascent);
    var it := CellItem(pane.cells[r][col], col, pane.xOffset, baseline, cellW);
    CellDrawn(pane.cells[r], pane.xOffset, baseline, cellW, col);
    RowDrawn(pane.cells, pane.xOffset, pane.yOffset, cellW, cellH, ascent, r, it);
    PaneDrawn(panes, cellW, cellH, ascent, p, it);
  }

  /** The cell-flattening loops of `render_panes`: pane by pane, row by row,
      column by column, skipping blank cells. */
  method FlattenPanes(panes: seq<PaneCells>, cellW: real, cellH: real, ascent: real) returns (chars: seq<TextItem>)
    ensures chars == PanesItems(panes, cellW, cellH, ascent)
  {
    chars := [];
    for p := 0 to |panes|
      invariant chars == PanesItems(panes[..p], cellW, cellH, ascent)
    {
      assert panes[..p + 1][..p] == panes[..p];
      var pane := panes[p];
      var paneChars := FlattenPane(pane.cells, pane.xOffset, pane.yOffset, cellW, cellH, ascent);
      chars := chars + paneChars;
    }
    assert panes[..|panes|] == panes;
  }

  /** The rows of one pane. */
  method FlattenPane(cells: seq<seq<RenderCell>>, xOffset: real, yOffset: real, cellW: real, cellH: real, ascent: real)
    returns (chars: seq<TextItem>)
    ensures chars == GridItems(cells, xOffset, yOffset, cellW, cellH, ascent)
  {
    chars := [];
    for r := 0 to |cells|
      invariant chars == GridItems(cells[..r], xOffset, yOffset, cellW, cellH, ascent)
    {
      assert cells[..r + 1][..r] == cells[..r];
      var baselineY := yOffset + r as real * cellH + ascent;
      var rowChars := FlattenRow(cells[r], xOffset, baselineY, cellW);
      chars := chars + rowChars;
    }
    assert cells[..|cells|] == cells;
  }

  /** The columns of one row, on the baseline `baselineY`. */
  method FlattenRow(row: seq<RenderCell>, xOffset: real, baselineY: real, cellW: real) returns (chars: seq<TextItem>)
    ensures chars == RowItems(row, xOffset, baselineY, cellW)
  {
    chars := [];
    for col := 0 to |row|
      invariant chars == RowItems(row[..col], xOffset, baselineY, cellW)
    {
      assert row[..col + 1][..col] == row[..col] && row[..col + 1][col] == row[col];
      assert RowItems(row[..col + 1], xOffset, baselineY, cellW) == RowItems(row[..col], xOffset, baselineY, cellW)
        + (if Blank(row[col].c) then [] else [CellItem(row[col], col, xOffset, baselineY, cellW)]);
      var cell := row[col];
      if cell.c == ' ' || cell.c == '\0' {
        continue;
      }
      var x := xOffset + col as real * cellW;
      chars := chars + [TextItem(cell.c, x, baselineY, cell.fg)];
    }
    assert row[..|row|] == row;
  }

  /** The cell-flattening loop of `render_grid` is that of a single pane
      at the origin: `0 + v` is `v`, so the positions are `col * cellW` and
      `row * cellH + ascent`. */
  method FlattenGrid(cells: seq<seq<RenderCell>>, cellW: real, cellH: real, ascent: real) returns (chars: seq<TextItem>)
    ensures chars == PanesItems([PaneCells(0.0, 0.0, cells)], cellW, cellH, ascent)
  {
    chars := FlattenPane(cells, 0.0, 0.0, cellW, cellH, ascent);
    assert [PaneCells(0.0, 0.0, cells)][..0] == [];
  }

  /** The text `render` draws while no terminal is attached. */
  const DEBUG_TEXT: string := "cool-rust-term v0.1.0\n\nTerminal not connected\n\n$ _"

  /** The pen and the characters after laying out `text` from (10, 10 +
      ascent): a newline returns to x = 10 one line lower and draws
      nothing; any other character is drawn at the pen, which moves one
      cell right. */
  datatype Pen = Pen(x: real, baseline: real, items: seq<TextItem>)

  function DebugLayout(text: string, cellW: real, lineHeight: real, ascent: real, color: Rgba): (pen: Pen)
    ensures |pen.items| <= |text|
  {
    if text == [] then Pen(10.0, 10.0 + ascent, [])
    else
      var pen := DebugLayout(text[..|text| - 1], cellW, lineHeight, ascent, color);
      var c := text[|text| - 1];
      if c == '\n' then Pen(10.0, pen.baseline + lineHeight, pen.items)
      else Pen(pen.x + cellW, pen.baseline, pen.items + [TextItem(c, pen.x, pen.baseline, color)])
  }

  /** The number of newlines in `text`. */
  function Newlines(text: string): nat {
    if text == [] then 0 else Newlines(text[..|text| - 1]) + (if text[|text| - 1] == '\n' then 1 else 0)
  }

  /** The number of characters after the last newline of `text`. */
  function Column(text: string): nat {
    if text == [] then 0 else if text[|text| - 1] == '\n' then 0 else Column(text[..|text| - 1]) + 1
  }

  /** The pen is `Column` cells right of x = 10. */
  lemma {:induction false} DebugPenX(text: string, cellW: real, lineHeight: real, ascent: real, color: Rgba)
    ensures DebugLayout(text, cellW, lineHeight, ascent, color).x == 10.0 + Column(text) as real * cellW
  {
    if text != [] {
      var init := text[..|text| - 1];
      DebugPenX(init, cellW, lineHeight, ascent, color);
      var k := Column(init) as real;
      assert (k + 1.0) * cellW == k * cellW + cellW;
    }
  }

  /** The pen is `Newlines` lines below the first baseline. */
  lemma {:induction false} DebugPenBaseline(text: string, cellW: real, lineHeight: real, ascent: real, color: Rgba)
    ensures DebugLayout(text, cellW, lineHeight, ascent, color).baseline
            == 10.0 + ascent + Newlines(text) as real * lineHeight
  {
    if text != [] {
      var init := text[..|text| - 1];
      DebugPenBaseline(init, cellW, lineHeight, ascent, color);
      var n := Newlines(init) as real;
      assert (n + 1.0) * lineHeight == n * lineHeight + lineHeight;
    }
  }

  /** One character is drawn per character that is not a newline, in the
      given colour, and no newline is drawn. */
  lemma {:induction false} DebugPenItems(text: string, cellW: real, lineHeight: real, ascent: real, color: Rgba)
    ensures var items := DebugLayout(text, cellW, lineHeight, ascent, color).items;
            && |items| == |text| - Newlines(text)
            && forall k :: 0 <= k < |items| ==> items[k].c != '\n' && items[k].color == color
  {
    if text != [] {
      DebugPenItems(text[..|text| - 1], cellW, lineHeight, ascent, color);
    }
  }

  /** The layout loop of `render`. */
  method LayOutDebugText(text: string, cellW: real, cellH: real, ascent: real, color: Rgba) returns (chars: seq<TextItem>)
    ensures chars == DebugLayout(text, cellW, cellH, ascent, color).items
  {
    var lineHeight := cellH;
    chars := [];
    var x := 10.0;
    var baselineY := 10.0 + ascent;
    for i := 0 to |text|
      invariant DebugLayout(text[..i], cellW, lineHeight, ascent, color) == Pen(x, baselineY, chars)
    {
      assert text[..i + 1][..i] == text[..i];
      var c := text[i];
      if c == '\n' {
        x := 10.0;
        baselineY := baselineY + lineHeight;
        continue;
      }
      chars := chars + [TextItem(c, x, baselineY, color)];
      x := x + cellW;
    }
    assert text[..|text|] == text;
  }
}
