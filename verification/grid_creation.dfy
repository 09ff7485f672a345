/** The pure part of `createLifeGrid`: the per-view layout table, the row
    count and the clamped cell size, where each cell goes, which cells count
    as lived, and which annotations are drawn. */
module GridCreation {
  import opened Wrappers
  import opened Numeric
  import opened Lists
  import opened Text
  import opened Activities
  import opened LifeGridCalculations
  import opened GridShapes
  import opened DynamicAnnotations

  datatype GridConfig = GridConfig(
    unitsPerRow: int,
    minCellSize: real,
    maxCellSize: real,
    shapeScale: real,
    cellPadding: real,
    topMargin: real,
    leftMargin: real,
    rightMargin: real,
    hoverScale: real,
    fontScale: real)

  /** `gridConfig[timeUnit]`: only the years, months and weeks views have a layout. */
  function ConfigFor(timeUnit: string): (r: Option<GridConfig>)
    ensures r.Some? <==> timeUnit in {"years", "months", "weeks"}
    ensures r.Some? ==> r.value.unitsPerRow >= 1 && 0.0 < r.value.minCellSize <= r.value.maxCellSize
                        && r.value.cellPadding > 0.0
    ensures timeUnit == "years" ==> r.value.unitsPerRow == 10
    ensures timeUnit == "months" ==> r.value.unitsPerRow == 24
    ensures timeUnit == "weeks" ==> r.value.unitsPerRow == 52
  {
    match timeUnit
    case "years" => Some(GridConfig(10, 45.0, 65.0, 2.5, 0.1, 55.0, 25.0, 25.0, 1.4, 1.4))
    case "months" => Some(GridConfig(24, 34.0, 55.0, 1.6, 0.1, 55.0, 25.0, 25.0, 2.0, 0.8))
    case "weeks" => Some(GridConfig(52, 12.0, 20.0, 1.1, 0.5, 55.0, 15.0, 10.0, 3.0, 2.0))
    case _ => None
  }

  /** Space kept free below the grid: more in the weeks view. */
  function BottomBuffer(timeUnit: string): real {
    if timeUnit == "weeks" then 120.0 else 80.0
  }

  datatype GridLayout = GridLayout(
    config: GridConfig,
    units: int,
    rows: int,
    cellSize: real,
    padding: real,
    totalWidth: real,
    totalHeight: real)

  /** A layout's rows hold its units with no spare row, and its cells have
      positive size. */
  predicate Planned(g: GridLayout) {
    g.config.unitsPerRow >= 1
    && g.rows * g.config.unitsPerRow >= g.units > (g.rows - 1) * g.config.unitsPerRow
    && g.config.minCellSize <= g.cellSize <= g.config.maxCellSize
    && 0.0 < g.config.minCellSize && g.config.cellPadding > 0.0
    && g.padding == g.cellSize * g.config.cellPadding
    && g.totalWidth == g.config.unitsPerRow as real * (g.cellSize + g.padding)
    && g.totalHeight == g.rows as real * (g.cellSize + g.padding)
  }

  /** The layout, or why there is none: the view has no configuration (the
      source fails reading it), or the cell size is NaN (no rows and no
      height to spare: `0 / 0`). */
  datatype LayoutOutcome = Laid(layout: GridLayout) | NoConfig | NaNCellSize

  /** Width left for the grid: the window less both margins and 20 more. */
  function AvailableWidth(c: GridConfig, windowWidth: real): real {
    windowWidth - (c.leftMargin + c.rightMargin) - 20.0
  }

  /** Width of one row, per unit of cell size. */
  function WidthNeeded(c: GridConfig): real {
    c.unitsPerRow as real * (1.0 + c.cellPadding)
  }

  /** Height of the grid, per unit of cell size. */
  function HeightNeeded(c: GridConfig, rows: int): real {
    rows as real * (1.0 + c.cellPadding)
  }

  /** The cell size that fits both the window's width and its height: with
      rows to show, the largest size whose row fits the available width and
      whose rows fit the available height. With none, the height does not
      constrain it, unless there is no height either (`0 / 0`) or it is
      negative (`-Infinity`). */
  function FitCellSize(c: GridConfig, windowWidth: real, availableHeight: real, rows: int): (n: Num)
    requires c.unitsPerRow >= 1 && c.cellPadding > 0.0
    ensures n.NaN? <==> rows == 0 && availableHeight == 0.0
    ensures rows > 0 ==>
      var aw, wn, hn := AvailableWidth(c, windowWidth), WidthNeeded(c), HeightNeeded(c, rows);
      n.Fin? && n.v * wn <= aw && n.v * hn <= availableHeight
      && (n.v * wn == aw || n.v * hn == availableHeight)
    ensures rows == 0 && availableHeight > 0.0 ==>
      n == Fin(AvailableWidth(c, windowWidth) / WidthNeeded(c))
    ensures rows == 0 && availableHeight < 0.0 ==> n.NegInf?
  {
    var availableWidth := AvailableWidth(c, windowWidth);
    var heightNeeded := HeightNeeded(c, rows);
    var widthNeeded := WidthNeeded(c);
    assert widthNeeded > 0.0 by {
      MulStrict(0.0, c.unitsPerRow as real, 1.0 + c.cellPadding);
    }
    assert heightNeeded == 0.0 <==> rows == 0;
    var n := NumMin(Div(availableWidth, widthNeeded), Div(availableHeight, heightNeeded));
    assert rows > 0 ==> (n.Fin? && n.v * widthNeeded <= availableWidth && n.v * heightNeeded <= availableHeight
                         && (n.v * widthNeeded == availableWidth || n.v * heightNeeded == availableHeight)) by {
      if rows > 0 {
        MulStrict(0.0, rows as real, 1.0 + c.cellPadding);
        FitsBothWays(availableWidth, availableHeight, widthNeeded, heightNeeded, n.v);
      }
    }
    n
  }

  /** The fitted size is the largest one that fits: any size whose row fits
      the available width and whose rows fit the available height is no
      larger. */
  lemma FitCellSizeIsLargest(c: GridConfig, windowWidth: real, availableHeight: real, rows: int, size: real)
    requires c.unitsPerRow >= 1 && c.cellPadding > 0.0 && rows > 0
    requires size * WidthNeeded(c) <= AvailableWidth(c, windowWidth)
    requires size * HeightNeeded(c, rows) <= availableHeight
    ensures var n := FitCellSize(c, windowWidth, availableHeight, rows); n.Fin? && size <= n.v
  {
    var n := FitCellSize(c, windowWidth, availableHeight, rows);
    var wn, hn := WidthNeeded(c), HeightNeeded(c, rows);
    assert wn > 0.0 by {
      MulStrict(0.0, c.unitsPerRow as real, 1.0 + c.cellPadding);
    }
    assert hn > 0.0 by {
      MulStrict(0.0, rows as real, 1.0 + c.cellPadding);
    }
    if n.v * wn == AvailableWidth(c, windowWidth) {
      CancelPositive(size, n.v, wn);
    } else {
      CancelPositive(size, n.v, hn);
    }
  }

  /** A positive factor can be cancelled from both sides of `<=`. */
  lemma CancelPositive(a: real, b: real, k: real)
    requires k > 0.0 && a * k <= b * k
    ensures a <= b
  {
    if a > b {
      MulStrict(b, a, k);
    }
  }

  /** The smaller of two quotients, times either divisor, stays within that
      dividend and meets one of them. */
  lemma FitsBothWays(aw: real, ah: real, wn: real, hn: real, v: real)
    requires wn > 0.0 && hn > 0.0
    requires v == aw / wn || v == ah / hn
    requires v <= aw / wn && v <= ah / hn
    ensures v * wn <= aw && v * hn <= ah
    ensures v * wn == aw || v * hn == ah
  {
    MulMonotone(v, aw / wn, wn);
    MulMonotone(v, ah / hn, hn);
    assert (aw / wn) * wn == aw;
    assert (ah / hn) * hn == ah;
  }

  /** `Math.min(Math.max(size, min), max)`: finite and within `[min, max]`
      unless `size` is NaN. */
  function ClampCellSize(size: Num, lo: real, hi: real): (r: Num)
    requires lo <= hi
    ensures r.NaN? <==> size.NaN?
    ensures !r.NaN? ==> r.Fin? && lo <= r.v <= hi
    ensures size.Fin? && lo <= size.v <= hi ==> r == size
    ensures (size.Fin? && size.v < lo) || size.NegInf? ==> r == Fin(lo)
    ensures (size.Fin? && size.v > hi) || size.PosInf? ==> r == Fin(hi)
  {
    NumMin(NumMax(size, Fin(lo)), Fin(hi))
  }

  /** The row count: `Math.ceil(units / unitsPerRow)`, zero exactly when
      there is no cell to show. */
  function RowCount(units: int, unitsPerRow: int): (rows: int)
    requires unitsPerRow >= 1
    ensures rows * unitsPerRow >= units > (rows - 1) * unitsPerRow
    ensures rows == 0 <==> units <= 0 && units > -unitsPerRow
    ensures units > 0 ==> rows > 0
  {
    var rows := Ceil(units as real / unitsPerRow as real);
    CeilDivBounds(units, unitsPerRow);
    assert units > 0 ==> units as real / unitsPerRow as real > 0.0;
    rows
  }

  /** The layout for a cell size that has been clamped into range. */
  function MakeLayout(c: GridConfig, units: int, rows: int, cellSize: real): (g: GridLayout)
    requires c.unitsPerRow >= 1 && 0.0 < c.minCellSize <= cellSize <= c.maxCellSize && c.cellPadding > 0.0
    requires rows * c.unitsPerRow >= units > (rows - 1) * c.unitsPerRow
    ensures Planned(g) && g.config == c && g.units == units && g.rows == rows && g.cellSize == cellSize
  {
    var padding := cellSize * c.cellPadding;
    var cellWithPadding := cellSize + padding;
    GridLayout(c, units, rows, cellSize, padding,
      c.unitsPerRow as real * cellWithPadding, rows as real * cellWithPadding)
  }

  /** The layout arithmetic of `createLifeGrid` for `units` cells, in a
      window `windowWidth` by `windowHeight`. */
  function PlanGrid(timeUnit: string, windowWidth: real, windowHeight: real, units: int): (o: LayoutOutcome)
    ensures o.NoConfig? <==> ConfigFor(timeUnit).None?
    ensures o.NaNCellSize? <==>
      ConfigFor(timeUnit).Some? && units <= 0 && units > -ConfigFor(timeUnit).value.unitsPerRow
      && windowHeight - ConfigFor(timeUnit).value.topMargin - BottomBuffer(timeUnit) == 0.0
    ensures o.Laid? ==> Planned(o.layout) && o.layout.units == units
                        && o.layout.config == ConfigFor(timeUnit).value
    ensures o.Laid? ==>
      var c := ConfigFor(timeUnit).value;
      var availableHeight := windowHeight - c.topMargin - BottomBuffer(timeUnit);
      var fit := FitCellSize(c, windowWidth, availableHeight, RowCount(units, c.unitsPerRow));
      Fin(o.layout.cellSize) == ClampCellSize(fit, c.minCellSize, c.maxCellSize)
  {
    match ConfigFor(timeUnit)
    case None => NoConfig
    case Some(c) =>
      var rows := RowCount(units, c.unitsPerRow);
      var availableHeight := windowHeight - c.topMargin - BottomBuffer(timeUnit);
      var size := ClampCellSize(FitCellSize(c, windowWidth, availableHeight, rows), c.minCellSize, c.maxCellSize);
      if size.Fin? then Laid(MakeLayout(c, units, rows, size.v)) else NaNCellSize
  }

  /** Every view with a configuration gets a layout once there is a cell to show. */
  lemma PlanGridSucceeds(timeUnit: string, windowWidth: real, windowHeight: real, units: int)
    requires timeUnit in {"years", "months", "weeks"} && units >= 1
    ensures PlanGrid(timeUnit, windowWidth, windowHeight, units).Laid?
  {
  }

  /** The clamped fit is at least any size within the maximum that fits
      both ways. */
  lemma ClampedFitIsLargest(c: GridConfig, windowWidth: real, availableHeight: real, rows: int, size: real)
    requires c.unitsPerRow >= 1 && c.cellPadding > 0.0 && rows > 0 && c.minCellSize <= c.maxCellSize
    requires size <= c.maxCellSize
    requires size * WidthNeeded(c) <= AvailableWidth(c, windowWidth)
    requires size * HeightNeeded(c, rows) <= availableHeight
    ensures var r := ClampCellSize(FitCellSize(c, windowWidth, availableHeight, rows), c.minCellSize, c.maxCellSize);
      r.Fin? && size <= r.v
  {
    FitCellSizeIsLargest(c, windowWidth, availableHeight, rows, size);
  }

  /** When the fitted size needs no clamping, the grid laid with it fits
      the window: its width within the available width and its height
      within the available height. */
  lemma FittedLayoutFitsWindow(c: GridConfig, windowWidth: real, availableHeight: real, units: int, rows: int)
    requires c.unitsPerRow >= 1 && 0.0 < c.minCellSize && c.cellPadding > 0.0 && rows > 0
    requires rows * c.unitsPerRow >= units > (rows - 1) * c.unitsPerRow
    requires var fit := FitCellSize(c, windowWidth, availableHeight, rows);
      fit.Fin? && c.minCellSize <= fit.v <= c.maxCellSize
    ensures var g := MakeLayout(c, units, rows, FitCellSize(c, windowWidth, availableHeight, rows).v);
      g.totalWidth <= AvailableWidth(c, windowWidth) && g.totalHeight <= availableHeight
  {
    var cs := FitCellSize(c, windowWidth, availableHeight, rows).v;
    var g := MakeLayout(c, units, rows, cs);
    assert g.totalWidth == cs * WidthNeeded(c) by {
      ScaledSpan(c.unitsPerRow as real, cs, c.cellPadding);
    }
    assert g.totalHeight == cs * HeightNeeded(c, rows) by {
      ScaledSpan(rows as real, cs, c.cellPadding);
    }
  }

  /** `n` cells of size `cs` with their padding span `cs` times `n` padded units. */
  lemma ScaledSpan(n: real, cs: real, pad: real)
    ensures n * (cs + cs * pad) == cs * (n * (1.0 + pad))
  {
  }

  // ---------------------------------------------------------------------
  // Cells

  /** `Math.floor(i / unitsPerRow)` and `i % unitsPerRow`. */
  function CellRow(i: int, unitsPerRow: int): int
    requires unitsPerRow >= 1
  {
    Floor(i as real / unitsPerRow as real)
  }

  function CellCol(i: int, unitsPerRow: int): int
    requires unitsPerRow >= 1
  {
    JsRem(i, unitsPerRow)
  }

  /** The cells sit row by row: cell `i` is in row `i / unitsPerRow`, column
      `i % unitsPerRow`, and in a planned grid inside its rows. */
  lemma CellPlacement(g: GridLayout, i: int)
    requires Planned(g) && 0 <= i < g.units
    ensures var upr := g.config.unitsPerRow;
      var row := CellRow(i, upr);
      var col := CellCol(i, upr);
      0 <= col < upr && 0 <= row < g.rows && row * upr + col == i
  {
    var upr := g.config.unitsPerRow;
    var a := AnnotationPosition(i, upr, 0.0, 0.0);
    assert a.row == CellRow(i, upr) && a.col == CellCol(i, upr);
    if a.row >= g.rows {
      MulIntMonotone(g.rows, a.row, upr);
      assert false;
    }
  }

  lemma MulIntMonotone(a: int, b: int, c: int)
    requires a <= b && c >= 0
    ensures a * c <= b * c
  {
  }

  /** A planned cell with its padding has positive width. */
  lemma CellWidthPositive(g: GridLayout)
    requires Planned(g)
    ensures g.cellSize + g.padding > 0.0
  {
    MulStrict(0.0, g.cellSize, g.config.cellPadding);
  }

  /** Distinct cells are drawn at distinct places, whatever the (positive)
      width `w` of a cell with its padding; in a planned grid that width is
      positive (`CellWidthPositive`). */
  lemma CellPlacementInjective(unitsPerRow: int, w: real, i: int, j: int)
    requires unitsPerRow >= 1 && w > 0.0 && 0 <= i && 0 <= j && i != j
    ensures (CellCol(i, unitsPerRow) as real * w, CellRow(i, unitsPerRow) as real * w)
            != (CellCol(j, unitsPerRow) as real * w, CellRow(j, unitsPerRow) as real * w)
  {
    var ri, ci, rj, cj := CellRow(i, unitsPerRow), CellCol(i, unitsPerRow), CellRow(j, unitsPerRow), CellCol(j, unitsPerRow);
    assert ri != rj || ci != cj by {
      RowColRecombine(i, unitsPerRow);
      RowColRecombine(j, unitsPerRow);
      DistinctIndexDistinctPlace(ri, ci, rj, cj, unitsPerRow);
    }
    ScaledPairsDistinct(ri, ci, rj, cj, w);
  }

  /** Row and column give the cell index back. */
  lemma RowColRecombine(i: int, unitsPerRow: int)
    requires unitsPerRow >= 1 && i >= 0
    ensures CellRow(i, unitsPerRow) * unitsPerRow + CellCol(i, unitsPerRow) == i
  {
    var a := AnnotationPosition(i, unitsPerRow, 0.0, 0.0);
    assert a.row == CellRow(i, unitsPerRow) && a.col == CellCol(i, unitsPerRow);
  }

  lemma ScaledPairsDistinct(ri: int, ci: int, rj: int, cj: int, w: real)
    requires (ri != rj || ci != cj) && w > 0.0
    ensures ci as real * w != cj as real * w || ri as real * w != rj as real * w
  {
    if ri != rj {
      RealMulInjective(ri, rj, w);
    } else {
      RealMulInjective(ci, cj, w);
    }
  }

  lemma DistinctIndexDistinctPlace(ri: int, ci: int, rj: int, cj: int, upr: int)
    requires ri * upr + ci != rj * upr + cj
    ensures ri != rj || ci != cj
  {
  }

  lemma RealMulInjective(a: int, b: int, w: real)
    requires a != b && w > 0.0
    ensures a as real * w != b as real * w
  {
    if a < b {
      MulStrict(a as real, b as real, w);
    } else {
      MulStrict(b as real, a as real, w);
    }
  }

  /** An annotation's anchor for cell `i` is that cell's top-left corner. */
  lemma AnchorIsCellCorner(g: GridLayout, i: int)
    requires Planned(g)
    ensures var a := AnnotationPosition(i, g.config.unitsPerRow, g.cellSize, g.padding);
      a.x == CellCol(i, g.config.unitsPerRow) as real * (g.cellSize + g.padding)
      && a.y == CellRow(i, g.config.unitsPerRow) as real * (g.cellSize + g.padding)
  {
  }

  /** The last cell, where "Turning N" points, is in the last row. */
  lemma LastCellInLastRow(g: GridLayout)
    requires Planned(g) && g.units >= 1
    ensures CellRow(g.units - 1, g.config.unitsPerRow) == g.rows - 1
  {
    LastIndexRow(g.units, g.rows, g.config.unitsPerRow);
  }

  lemma LastIndexRow(units: int, rows: int, unitsPerRow: int)
    requires unitsPerRow >= 1 && units >= 1
    requires rows * unitsPerRow >= units > (rows - 1) * unitsPerRow
    ensures CellRow(units - 1, unitsPerRow) == rows - 1
  {
    var row := CellRow(units - 1, unitsPerRow);
    var col := CellCol(units - 1, unitsPerRow);
    assert row * unitsPerRow + col == units - 1 && 0 <= col < unitsPerRow by {
      var a := AnnotationPosition(units - 1, unitsPerRow, 0.0, 0.0);
      assert a.row == row && a.col == col;
    }
    if row < rows - 1 {
      MulIntMonotone(row + 1, rows - 1, unitsPerRow);
      assert false;
    } else if row > rows - 1 {
      MulIntMonotone(rows, row, unitsPerRow);
      assert false;
    }
  }

  /** One drawn cell: place, side, label and fill. */
  datatype CellView = CellView(index: int, row: int, col: int, isLived: bool, caption: string, fill: Fill)

  /** The cells of `createLifeGrid`. A cell is on the lived side when its
      index is below `livedUnits`, the page's lived amount; its colour comes
      from the hook's `getActivityColorForCell` for the hook's progress `p`. */
  function Cells(g: GridLayout, livedUnits: real, p: Progress, acts: seq<Activity>): (r: seq<CellView>)
    requires Planned(g) && g.units >= 0
    ensures |r| == g.units
    ensures forall i :: 0 <= i < |r| ==>
      r[i].index == i && r[i].caption == IntToString(i + 1)
      && (r[i].isLived <==> (i as real) < livedUnits)
      && 0 <= r[i].col < g.config.unitsPerRow && 0 <= r[i].row < g.rows
      && r[i].row * g.config.unitsPerRow + r[i].col == i
      && r[i].fill == Solid(ColorForCell(i, r[i].isLived, p, acts))
  {
    var upr := g.config.unitsPerRow;
    var r := seq(g.units, i requires 0 <= i < g.units =>
      var isLived := (i as real) < livedUnits;
      CellView(i, CellRow(i, upr), CellCol(i, upr), isLived, IntToString(i + 1),
               CreateGridCell(Plain(ColorForCell(i, isLived, p, acts)), i, DefaultCellColor)));
    assert forall i :: 0 <= i < g.units ==>
      0 <= CellCol(i, upr) < upr && 0 <= CellRow(i, upr) < g.rows && CellRow(i, upr) * upr + CellCol(i, upr) == i
    by {
      forall i | 0 <= i < g.units
        ensures 0 <= CellCol(i, upr) < upr && 0 <= CellRow(i, upr) < g.rows && CellRow(i, upr) * upr + CellCol(i, upr) == i
      {
        CellPlacement(g, i);
      }
    }
    r
  }

  /** The page's lived amount splits the cells, the hook's progress colours
      them: a cell on the lived side past the hook's `lived` is shown as
      unlived, and one on the unlived side before it as lived. */
  lemma SplitDisagreement(g: GridLayout, livedUnits: real, p: Progress, acts: seq<Activity>, i: int)
    requires Planned(g) && 0 <= i < g.units
    ensures var c := Cells(g, livedUnits, p, acts)[i];
      ((i as real) < livedUnits && i >= p.lived ==> c.fill == Solid(UnlivedColor))
      && ((i as real) >= livedUnits && i < p.lived ==> c.fill == Solid(LivedColor))
  {
  }

  // ---------------------------------------------------------------------
  // Annotations

  /** A custom annotation: on a cell, or on the grid as a whole, optionally
      shown in one view only. */
  datatype Annotation =
    | CellAnnotation(text: string, position: string, color: string, cellIndex: int, showInView: Option<string>)
    | GridAnnotation(text: string, position: string, color: string, showInView: Option<string>)

  /** An annotation as drawn, with its view restriction dropped. */
  datatype Drawn =
    | DrawnCell(cellIndex: int, text: string, position: string, color: string)
    | DrawnGrid(text: string, position: string, color: string)

  function Draw(a: Annotation): Drawn {
    match a
    case CellAnnotation(t, pos, c, i, _) => DrawnCell(i, t, pos, c)
    case GridAnnotation(t, pos, c, _) => DrawnGrid(t, pos, c)
  }

  /** Cell annotations for cells beyond the grid are skipped; grid
      annotations always stay. */
  predicate Kept(a: Annotation, units: int) {
    !(a.CellAnnotation? && a.cellIndex >= units)
  }

  /** The `forEach` over the custom annotations: each kept one, drawn, in order. */
  function DrawKept(anns: seq<Annotation>, units: int): seq<Drawn>
    decreases |anns|
  {
    if |anns| == 0 then []
    else (if Kept(anns[0], units) then [Draw(anns[0])] else []) + DrawKept(anns[1..], units)
  }

  /** What the `forEach` draws: every kept annotation, no cell note beyond
      the grid, and one drawing per annotation when all are kept. */
  lemma {:induction false} DrawKeptProperties(anns: seq<Annotation>, units: int)
    ensures var r := DrawKept(anns, units);
      |r| <= |anns|
      && (forall k :: 0 <= k < |anns| && Kept(anns[k], units) ==> Draw(anns[k]) in r)
      && (forall d :: d in r && d.DrawnCell? ==> d.cellIndex < units)
      && ((forall k :: 0 <= k < |anns| ==> Kept(anns[k], units)) ==> |r| == |anns|)
    ensures forall d :: d in DrawKept(anns, units) ==>
      exists k :: 0 <= k < |anns| && Kept(anns[k], units) && d == Draw(anns[k])
    decreases |anns|
  {
    if |anns| > 0 {
      DrawKeptProperties(anns[1..], units);
      var h := if Kept(anns[0], units) then [Draw(anns[0])] else [];
      var rest := DrawKept(anns[1..], units);
      var r := h + rest;
      assert r == DrawKept(anns, units);
      assert forall k :: 1 <= k < |anns| ==> anns[k] == anns[1..][k - 1];
      forall d | d in r && d.DrawnCell? ensures d.cellIndex < units {
        if d in h {
          assert d == Draw(anns[0]);
        }
      }
      forall d | d in r ensures exists k :: 0 <= k < |anns| && Kept(anns[k], units) && d == Draw(anns[k]) {
        if d in h {
          assert Kept(anns[0], units) && d == Draw(anns[0]);
        } else {
          assert d in rest;
          var k :| 0 <= k < |anns[1..]| && Kept(anns[1..][k], units) && d == Draw(anns[1..][k]);
          assert anns[k + 1] == anns[1..][k];
        }
      }
    }
  }

  /** The `forEach` against a reference definition: draw each annotation of
      the list filtered down to the kept ones. */
  lemma {:induction false} DrawKeptIsFilterThenDraw(anns: seq<Annotation>, units: int)
    ensures var f := Filter(anns, (a: Annotation) => Kept(a, units));
      DrawKept(anns, units) == seq(|f|, i requires 0 <= i < |f| => Draw(f[i]))
    decreases |anns|
  {
    var keep := (a: Annotation) => Kept(a, units);
    var f := Filter(anns, keep);
    if |anns| > 0 {
      DrawKeptIsFilterThenDraw(anns[1..], units);
      var f1 := Filter(anns[1..], keep);
      var rest := DrawKept(anns[1..], units);
      assert rest == seq(|f1|, i requires 0 <= i < |f1| => Draw(f1[i]));
      if Kept(anns[0], units) {
        assert f == [anns[0]] + f1;
        assert DrawKept(anns, units) == [Draw(anns[0])] + rest;
        assert |DrawKept(anns, units)| == |f|;
        forall i | 0 <= i < |f| ensures DrawKept(anns, units)[i] == Draw(f[i]) {
          if i > 0 {
            assert f[i] == f1[i - 1];
          }
        }
      } else {
        assert f == f1;
        assert DrawKept(anns, units) == rest;
      }
    }
  }

  /** The custom annotations drawn on a grid of `units` cells. */
  function CustomDrawn(anns: seq<Annotation>, units: int): (r: seq<Drawn>)
    ensures |r| <= |anns|
    ensures forall k :: 0 <= k < |anns| && Kept(anns[k], units) ==> Draw(anns[k]) in r
    ensures forall d :: d in r && d.DrawnCell? ==> d.cellIndex < units
    ensures (forall k :: 0 <= k < |anns| ==> Kept(anns[k], units)) ==> |r| == |anns|
    ensures forall d :: d in r ==> exists k :: 0 <= k < |anns| && Kept(anns[k], units) && d == Draw(anns[k])
  {
    DrawKeptProperties(anns, units);
    DrawKept(anns, units)
  }

  /** The `forEach` is taken entry by entry. */
  lemma {:induction false} DrawKeptConcat(a: seq<Annotation>, b: seq<Annotation>, units: int)
    ensures DrawKept(a + b, units) == DrawKept(a, units) + DrawKept(b, units)
    decreases |a|
  {
    if |a| == 0 {
      assert a + b == b;
    } else {
      var h := if Kept(a[0], units) then [Draw(a[0])] else [];
      assert (a + b)[0] == a[0] && (a + b)[1..] == a[1..] + b;
      DrawKeptConcat(a[1..], b, units);
      assert h + (DrawKept(a[1..], units) + DrawKept(b, units))
          == (h + DrawKept(a[1..], units)) + DrawKept(b, units);
    }
  }

  /** Custom annotations are drawn in list order. */
  lemma CustomDrawnConcat(a: seq<Annotation>, b: seq<Annotation>, units: int)
    ensures CustomDrawn(a + b, units) == CustomDrawn(a, units) + CustomDrawn(b, units)
  {
    DrawKeptConcat(a, b, units);
  }

  /** All annotations of a grid with `units` cells for a lifespan of
      `lifespan` years: "Birth" on the first cell, "Turning <lifespan>" on the
      last, then the custom ones that fit. */
  function DrawnAnnotations(units: int, lifespan: int, anns: seq<Annotation>): (r: seq<Drawn>)
    ensures |r| >= 2
    ensures r[0] == DrawnCell(0, "Birth", "left", "#3B82F6")
    ensures r[1] == DrawnCell(units - 1, "Turning\n" + IntToString(lifespan), "right", "#8B5CF6")
    ensures forall k :: 2 <= k < |r| && r[k].DrawnCell? ==> r[k].cellIndex < units
    ensures forall k :: 0 <= k < |anns| && Kept(anns[k], units) ==> Draw(anns[k]) in r[2..]
    ensures r[2..] == CustomDrawn(anns, units)
    ensures forall d :: d in r[2..] ==> exists k :: 0 <= k < |anns| && Kept(anns[k], units) && d == Draw(anns[k])
  {
    var head := [DrawnCell(0, "Birth", "left", "#3B82F6"),
                 DrawnCell(units - 1, "Turning\n" + IntToString(lifespan), "right", "#8B5CF6")];
    var r := head + CustomDrawn(anns, units);
    assert r[2..] == CustomDrawn(anns, units);
    r
  }

  /** The page's filter: an annotation without a view (or with an empty one)
      is shown everywhere, the others only in their own view. */
  predicate ShownIn(a: Annotation, timeUnit: string) {
    a.showInView.None? || a.showInView.value == "" || a.showInView.value == timeUnit
  }

  function VisibleAnnotations(anns: seq<Annotation>, timeUnit: string): (r: seq<Annotation>)
    ensures forall a :: a in r <==> a in anns && ShownIn(a, timeUnit)
  {
    Filter(anns, (a: Annotation) => ShownIn(a, timeUnit))
  }

  /** The page's initial annotations: one row caption per view, and
      "Turning 20/40/60" marks in the weeks and months views. */
  const DefaultAnnotations: seq<Annotation> := [
    GridAnnotation("Each row is one decade", "topWithArrows", "#3B82F6", Some("years")),
    GridAnnotation("Each row is 52 weeks = 1 year", "topWithArrows", "#3B82F6", Some("weeks")),
    GridAnnotation("Each row is 24 months = 2 years", "topWithArrows", "#3B82F6", Some("months")),
    CellAnnotation("Turning\n20", "left", "#22C55E", 20 * 52, Some("weeks")),
    CellAnnotation("Turning\n40", "left", "#EAB308", 40 * 52, Some("weeks")),
    CellAnnotation("Turning\n60", "left", "#8B5CF6", 60 * 52, Some("weeks")),
    CellAnnotation("Turning\n20", "left", "#22C55E", 20 * 12, Some("months")),
    CellAnnotation("Turning\n40", "left", "#EAB308", 40 * 12, Some("months")),
    CellAnnotation("Turning\n60", "left", "#8B5CF6", 60 * 12, Some("months"))
  ]

  /** An annotation can be drawn: its position has a placement and its
      colour an arrow marker. */
  predicate Placeable(a: Annotation) {
    HasMarker(a.color)
    && (a.CellAnnotation? ==> a.position in {"top", "right", "bottom", "left"})
    && (a.GridAnnotation? ==> a.position in {"top", "topWithArrows"})
  }

  /** Every initial annotation can be drawn, in whichever view shows it. */
  lemma DefaultAnnotationsPlaceable(timeUnit: string)
    ensures forall a :: a in VisibleAnnotations(DefaultAnnotations, timeUnit) ==> Placeable(a)
  {
    DefaultsPlaceable();
    FilteredPlaceable(DefaultAnnotations, timeUnit);
  }

  /** The view filter keeps only annotations of the list it is given. */
  lemma FilteredPlaceable(anns: seq<Annotation>, timeUnit: string)
    requires forall k :: 0 <= k < |anns| ==> Placeable(anns[k])
    ensures forall a :: a in VisibleAnnotations(anns, timeUnit) ==> Placeable(a)
  {
  }

  /** Each initial annotation has a placement and a marker. */
  lemma DefaultsPlaceable()
    ensures forall k :: 0 <= k < |DefaultAnnotations| ==> Placeable(DefaultAnnotations[k])
  {
    forall k | 0 <= k < |DefaultAnnotations| ensures Placeable(DefaultAnnotations[k]) {
      var a := DefaultAnnotations[k];
      assert a.color[1..] in MarkerPalette;
      PrefixedPaletteColorHasMarker(a.color);
      assert a.CellAnnotation? ==> a.position == "left";
      assert a.GridAnnotation? ==> a.position == "topWithArrows";
      PlaceableWhenMarked(a);
    }
  }

  lemma PlaceableWhenMarked(a: Annotation)
    requires HasMarker(a.color)
    requires a.CellAnnotation? ==> a.position == "left"
    requires a.GridAnnotation? ==> a.position == "topWithArrows"
    ensures Placeable(a)
  {
  }

  /** Extra days never shrink the lifespan while the lived days are within it. */
  lemma NoShorterLife(livedDays: int, lifespan: int, acts: seq<Activity>)
    requires livedDays <= lifespan * 365
    ensures CalculateBaseProgress(livedDays, lifespan, acts).totalDays >= lifespan * 365
  {
    var h := FutureHoursPerDay(acts);
    if h.Some? && h.value > 24.0 {
      MulMonotone(0.0, (lifespan * 365 - livedDays) as real, h.value / 24.0 - 1.0);
    }
  }

  /** For a lifespan of at least 60 years, the initial "Turning 20/40/60"
      marks of the weeks and months views all land on cells of the hook's
      grid, so none of them is skipped. */
  lemma TurningMarksDrawn(livedDays: int, lifespan: int, acts: seq<Activity>, timeUnit: string)
    requires lifespan >= 60 && livedDays <= lifespan * 365 && timeUnit in {"weeks", "months"}
    ensures var units := CalculateProgress(livedDays, lifespan, acts, timeUnit).total;
      forall a :: a in VisibleAnnotations(DefaultAnnotations, timeUnit) ==> Kept(a, units)
  {
    var units := CalculateProgress(livedDays, lifespan, acts, timeUnit).total;
    assert units > LastMark(timeUnit) by {
      NoShorterLife(livedDays, lifespan, acts);
    }
    forall a | a in VisibleAnnotations(DefaultAnnotations, timeUnit)
      ensures Kept(a, units)
    {
      DefaultMarksWithin(a, timeUnit);
    }
  }

  /** The last "Turning" mark of the weeks or months view. */
  function LastMark(timeUnit: string): int {
    if timeUnit == "weeks" then 60 * 52 else 60 * 12
  }

  lemma DefaultMarksWithin(a: Annotation, timeUnit: string)
    requires timeUnit in {"weeks", "months"}
    requires a in DefaultAnnotations && ShownIn(a, timeUnit)
    ensures a.CellAnnotation? ==> a.cellIndex <= LastMark(timeUnit)
  {
  }
}
