/** Placement of the grid's annotations: a note pointing at one cell with an
    arrow, or a note above the whole grid, optionally flanked by two arrows
    running to the grid's edges. Coordinates are relative to the grid's
    top-left corner; the rendered text width is a parameter. */
module DynamicAnnotations {
  import opened Wrappers
  import opened Numeric
  import opened Text

  /** `calculateAnnotationPosition`: the cell's row and column, and its
      top-left corner. */
  datatype CellAnchor = CellAnchor(x: real, y: real, cellSize: real, row: int, col: int)

  function AnnotationPosition(cellIndex: int, unitsPerRow: int, cellSize: real, padding: real): (a: CellAnchor)
    requires unitsPerRow >= 1
    ensures a.cellSize == cellSize
    ensures cellIndex >= 0 ==> 0 <= a.row && 0 <= a.col < unitsPerRow && a.row * unitsPerRow + a.col == cellIndex
    ensures cellIndex < 0 ==> a.row < 0 && -unitsPerRow < a.col <= 0
    ensures a.x == a.col as real * (cellSize + padding) && a.y == a.row as real * (cellSize + padding)
  {
    var row := Floor(cellIndex as real / unitsPerRow as real);
    var col := JsRem(cellIndex, unitsPerRow);
    assert cellIndex >= 0 ==> row == cellIndex / unitsPerRow by {
      if cellIndex >= 0 {
        FloorOfQuotient(cellIndex, unitsPerRow);
      }
    }
    assert cellIndex < 0 ==> row < 0 by {
      if cellIndex < 0 {
        assert cellIndex as real / unitsPerRow as real < 0.0;
      }
    }
    CellAnchor(col as real * (cellSize + padding), row as real * (cellSize + padding), cellSize, row, col)
  }

  /** For a natural dividend, `Math.floor(n / d)` is integer division. */
  lemma FloorOfQuotient(n: nat, d: int)
    requires d >= 1
    ensures Floor(n as real / d as real) == n / d
  {
    var q := n / d;
    var r := n % d;
    assert n == q * d + r;
    assert (n as real) / (d as real) == q as real + (r as real) / (d as real);
    assert 0.0 <= (r as real) / (d as real) < 1.0;
  }

  // ---------------------------------------------------------------------
  // Cell annotations

  datatype Point = Point(x: real, y: real)

  /** Which end of a path carries the arrowhead: `marker-end` draws it at
      the path's last point, `marker-start` at its first. */
  datatype MarkerAt = AtEnd | AtStart

  /** An arrow: the path from `from` to `to`, with its arrowhead at one end. */
  datatype Arrow = Arrow(from: Point, to: Point, marker: MarkerAt)

  /** Where the arrowhead is drawn. */
  function Tip(a: Arrow): Point {
    if a.marker.AtEnd? then a.to else a.from
  }

  /** The end of the arrow away from the arrowhead. */
  function Tail(a: Arrow): Point {
    if a.marker.AtEnd? then a.from else a.to
  }

  datatype TextAnchor = AnchorStart | AnchorMiddle | AnchorEnd

  datatype CellNote = CellNote(text: Point, anchor: TextAnchor, arrow: Arrow)

  /** The `positions` table of `addCellAnnotation` for a cell whose top-left
      corner is `(x, y)`. Any other position has no entry (`None`); the source
      then fails on `pos.textX`. */
  function CellNotePlacement(position: string, x: real, y: real, cellSize: real): (r: Option<CellNote>)
    ensures r.Some? <==> position in {"top", "right", "bottom", "left"}
    ensures position == "top" ==>
      r.value == CellNote(Point(x, y - 25.0), AnchorMiddle,
                          Arrow(Point(x + cellSize / 2.0, y - 20.0), Point(x + cellSize / 2.0, y), AtEnd))
    ensures position == "right" ==>
      r.value == CellNote(Point(x + cellSize + 60.0, y + cellSize / 2.0), AnchorStart,
                          Arrow(Point(x + cellSize + 55.0, y + cellSize / 2.0), Point(x + cellSize, y + cellSize / 2.0), AtEnd))
    ensures position == "bottom" ==>
      r.value == CellNote(Point(x + cellSize / 2.0, y + cellSize + 30.0), AnchorMiddle,
                          Arrow(Point(x + cellSize / 2.0, y + cellSize + 25.0), Point(x + cellSize / 2.0, y + cellSize), AtEnd))
    ensures position == "left" ==>
      r.value == CellNote(Point(x - 55.0, y + cellSize / 2.0), AnchorEnd,
                          Arrow(Point(x - 55.0, y + cellSize / 2.0), Point(x, y + cellSize / 2.0), AtEnd))
  {
    match position
    case "top" =>
      Some(CellNote(Point(x, y - 25.0), AnchorMiddle,
                    Arrow(Point(x + cellSize / 2.0, y - 20.0), Point(x + cellSize / 2.0, y), AtEnd)))
    case "right" =>
      Some(CellNote(Point(x + cellSize + 60.0, y + cellSize / 2.0), AnchorStart,
                    Arrow(Point(x + cellSize + 55.0, y + cellSize / 2.0), Point(x + cellSize, y + cellSize / 2.0), AtEnd)))
    case "bottom" =>
      Some(CellNote(Point(x + cellSize / 2.0, y + cellSize + 30.0), AnchorMiddle,
                    Arrow(Point(x + cellSize / 2.0, y + cellSize + 25.0), Point(x + cellSize / 2.0, y + cellSize), AtEnd)))
    case "left" =>
      Some(CellNote(Point(x - 55.0, y + cellSize / 2.0), AnchorEnd,
                    Arrow(Point(x - 55.0, y + cellSize / 2.0), Point(x, y + cellSize / 2.0), AtEnd)))
    case _ => None
  }

  /** `p` lies in the closed square of side `s` at `(x, y)`. */
  predicate InSquare(p: Point, x: real, y: real, s: real) {
    x <= p.x <= x + s && y <= p.y <= y + s
  }

  /** `p` is the midpoint of the square's edge on the named side. */
  predicate EdgeMidpoint(p: Point, position: string, x: real, y: real, s: real) {
    match position
    case "top" => p == Point(x + s / 2.0, y)
    case "right" => p == Point(x + s, y + s / 2.0)
    case "bottom" => p == Point(x + s / 2.0, y + s)
    case "left" => p == Point(x, y + s / 2.0)
    case _ => false
  }

  /** Every cell arrow is horizontal or vertical, starts outside the cell on
      the named side and points at the middle of that side's edge; the text
      sits at or beyond the arrow's tail, away from the cell. */
  lemma CellArrowPointsAtCell(position: string, x: real, y: real, cellSize: real)
    requires position in {"top", "right", "bottom", "left"}
    requires cellSize >= 0.0
    ensures var n := CellNotePlacement(position, x, y, cellSize).value;
      var tip, tail := Tip(n.arrow), Tail(n.arrow);
      EdgeMidpoint(tip, position, x, y, cellSize)
      && !InSquare(tail, x, y, cellSize)
      && (tail.x == tip.x || tail.y == tip.y)
      && (position == "left" ==> n.text.x <= tail.x < tip.x)
      && (position == "right" ==> n.text.x >= tail.x > tip.x)
      && (position == "top" ==> n.text.y <= tail.y < tip.y)
      && (position == "bottom" ==> n.text.y >= tail.y > tip.y)
  {
  }

  /** One `tspan` of a note's text. */
  datatype Tspan = Tspan(x: real, dy: string, anchor: TextAnchor, text: string)

  /** The note's text split on line breaks, one `tspan` per line: the first
      stays on the note's baseline, each later one moves down by 1.1em. */
  function Tspans(text: string, x: real, anchor: TextAnchor): (r: seq<Tspan>)
    ensures |r| == Count(text, '\n') + 1
    ensures r[0].dy == "0"
    ensures forall k :: 1 <= k < |r| ==> r[k].dy == "1.1em"
    ensures forall k :: 0 <= k < |r| ==> r[k].x == x && r[k].anchor == anchor && '\n' !in r[k].text
    ensures Join(LineTexts(r), '\n') == text
  {
    var lines := Split(text, '\n');
    SplitCount(text, '\n');
    JoinSplit(text, '\n');
    var r := seq(|lines|, k requires 0 <= k < |lines| => Tspan(x, if k == 0 then "0" else "1.1em", anchor, lines[k]));
    assert LineTexts(r) == lines;
    r
  }

  /** The texts of the `tspan`s, in order. */
  function LineTexts(spans: seq<Tspan>): (r: seq<string>)
    ensures |r| == |spans|
    ensures forall k :: 0 <= k < |spans| ==> r[k] == spans[k].text
  {
    seq(|spans|, k requires 0 <= k < |spans| => spans[k].text)
  }

  // ---------------------------------------------------------------------
  // Arrow markers

  /** The colours `createColoredArrowMarkers` defines markers for, without '#'. */
  const MarkerPalette: seq<string> := ["3B82F6", "8B5CF6", "EF4444", "10B981", "22C55E", "EAB308"]

  /** `url(#arrowhead-<colour>)` with the first '#' of the colour removed. */
  function MarkerEnd(color: string): (id: string)
    ensures |color| > 0 && color[0] == '#' ==> id == "arrowhead-" + color[1..]
    ensures '#' !in color ==> id == "arrowhead-" + color
  {
    "arrowhead-" + RemoveFirst(color, '#')
  }

  /** `url(#arrowhead-start-<colour>)`, for the left arrow of a grid note. */
  function MarkerStart(color: string): (id: string)
    ensures |color| > 0 && color[0] == '#' ==> id == "arrowhead-start-" + color[1..]
    ensures '#' !in color ==> id == "arrowhead-start-" + color
  {
    "arrowhead-start-" + RemoveFirst(color, '#')
  }

  /** The marker a colour asks for is among those defined. */
  predicate HasMarker(color: string) {
    RemoveFirst(color, '#') in MarkerPalette
  }

  /** Each palette colour written with its '#' finds its marker. */
  lemma PaletteMarkersFound(hex: string)
    requires hex in MarkerPalette
    ensures HasMarker("#" + hex)
    ensures MarkerEnd("#" + hex) == "arrowhead-" + hex && MarkerStart("#" + hex) == "arrowhead-start-" + hex
  {
    assert ("#" + hex)[1..] == hex;
  }

  /** A colour written as '#' and a palette entry finds its marker. */
  lemma PrefixedPaletteColorHasMarker(c: string)
    requires |c| > 0 && c[0] == '#' && c[1..] in MarkerPalette
    ensures HasMarker(c)
  {
  }

  // ---------------------------------------------------------------------
  // Grid annotations

  datatype GridNote = GridNote(text: Point, anchor: TextAnchor, arrows: seq<Arrow>)

  /** The right edge of the last cell of a row. */
  function LastCellX(unitsPerRow: int, cellSize: real, padding: real): real {
    (unitsPerRow - 1) as real * (cellSize + padding) + cellSize
  }

  /** `addGridAnnotation`: the text centred above the grid, and for
      `topWithArrows` the two arrows of `getArrowPaths` at height -20, from
      the grid's left edge to 20 before the text and from 20 after the text
      to the last cell's right edge. The left path carries `marker-start` and
      the right one `marker-end`, so both arrowheads point away from the text,
      at the grid's two ends. Other positions have no entry. */
  function GridNotePlacement(position: string, totalWidth: real, unitsPerRow: int, cellSize: real,
                             padding: real, textWidth: real): (r: Option<GridNote>)
    ensures r.Some? <==> position in {"top", "topWithArrows"}
    ensures r.Some? ==> r.value.text == Point(totalWidth / 2.0, -35.0) && r.value.anchor == AnchorMiddle
    ensures position == "top" ==> r.value.arrows == []
    ensures position == "topWithArrows" ==>
      var a := r.value.arrows;
      |a| == 2
      && a[0].from == Point(0.0, -20.0) && a[1].to == Point(LastCellX(unitsPerRow, cellSize, padding), -20.0)
      && Tip(a[0]) == a[0].from && Tip(a[1]) == a[1].to
      && Tail(a[0]).y == -20.0 && Tail(a[1]).y == -20.0
      && Tail(a[1]).x - Tail(a[0]).x == textWidth + 40.0
      && Tail(a[0]).x + Tail(a[1]).x == totalWidth
  {
    match position
    case "top" => Some(GridNote(Point(totalWidth / 2.0, -35.0), AnchorMiddle, []))
    case "topWithArrows" =>
      var textStart := totalWidth / 2.0 - textWidth / 2.0;
      var textEnd := totalWidth / 2.0 + textWidth / 2.0;
      var lastCellX := LastCellX(unitsPerRow, cellSize, padding);
      Some(GridNote(Point(totalWidth / 2.0, -35.0), AnchorMiddle,
        [Arrow(Point(0.0, -20.0), Point(textStart - 20.0, -20.0), AtStart),
         Arrow(Point(textEnd + 20.0, -20.0), Point(lastCellX, -20.0), AtEnd)]))
    case _ => None
  }

  /** On a grid `unitsPerRow` cells wide, the right arrow stops at the grid's
      width less one padding (the last cell has none after it), so it is
      shorter than the left arrow by exactly that padding. */
  lemma GridArrowsOffByPadding(unitsPerRow: int, cellSize: real, padding: real, textWidth: real)
    ensures var totalWidth := unitsPerRow as real * (cellSize + padding);
      var a := GridNotePlacement("topWithArrows", totalWidth, unitsPerRow, cellSize, padding, textWidth).value.arrows;
      Tip(a[1]).x == totalWidth - padding
      && (Tail(a[0]).x - Tip(a[0]).x) - (Tip(a[1]).x - Tail(a[1]).x) == padding
  {
  }
}
